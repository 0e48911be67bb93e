/** One matching round, in process and over the network: what each phase does to a session. */
module Rounds {
  import opened JsMap
  import opened Sessions
  import Netting
  import Shamir

  /** What a node gets from a sealed share: an error, a value that counts as no share (null, false, zero
      or the empty text), or a share. */
  datatype Opening = Refused | Blank | Yields(plain: OpenShare)

  /** A committee: its nodes in order, how a node opens a share and signs, and the engine's sort. */
  datatype Config = Config(
    nodes: seq<string>,
    decrypt: (string, SealedShare) -> Opening,
    sign: (string, string, seq<Netting.MatchResult>) -> Signature,
    sort: Netting.Sorter)

  /** What a node answers to a decryption request: its own id and one share, or null, per intent. */
  datatype Reply = Reply(nodeId: string, shares: OrderedMap<string, Option<OpenShare>>)

  /** How a round ends; `Threw` is an exception out of the round. */
  datatype Outcome =
    | Produced(batch: Batch) | NeedTwoIntents | DecryptFailed | TooFewShares | TooFewNodes | TooFewSignatures | Threw

  /** Two thirds of n, rounded up. */
  function Threshold(n: nat): nat {
    (2 * n + 2) / 3
  }

  function Present<T>(xs: seq<Option<T>>): (r: seq<T>)
    ensures |r| <= |xs|
  {
    if xs == [] then []
    else
      var n := |xs| - 1;
      if xs[n].Some? then Present(xs[..n]) + [xs[n].value] else Present(xs[..n])
  }

  // ---------- opening shares in process ----------

  function InSlot(o: Opening): Option<OpenShare> {
    if o.Yields? then Some(o.plain) else None
  }

  function Opened(cfg: Config, node: string, e: ShareEntry): ShareEntry {
    e.(decrypted := InSlot(cfg.decrypt(node, e.sealed)))
  }

  function OpenFirst(cfg: Config, node: string, slots: NodeShares, n: nat): NodeShares {
    seq(|slots|, k requires 0 <= k < |slots| => if k < n then (slots[k].0, Opened(cfg, node, slots[k].1)) else slots[k])
  }

  predicate Opens(cfg: Config, node: string, e: ShareEntry) {
    !cfg.decrypt(node, e.sealed).Refused?
  }

  function FirstFailure(cfg: Config, node: string, slots: NodeShares): (n: nat)
    ensures n <= |slots| && (forall k | 0 <= k < n :: Opens(cfg, node, slots[k].1))
    ensures n < |slots| ==> !Opens(cfg, node, slots[n].1)
  {
    if slots == [] || !Opens(cfg, node, slots[0].1) then 0 else 1 + FirstFailure(cfg, node, slots[1..])
  }

  /** Opens the slots of every node in turn; stops at the first share that cannot be unsealed. */
  function OpenTable(cfg: Config, shares: ShareTable, nodes: seq<string>): (ShareTable, bool)
    decreases |nodes|
  {
    if nodes == [] then (shares, true)
    else if !Has(shares, nodes[0]) then OpenTable(cfg, shares, nodes[1..])
    else
      var slots := Get(shares, nodes[0]);
      var n := FirstFailure(cfg, nodes[0], slots);
      var t := Put(shares, nodes[0], OpenFirst(cfg, nodes[0], slots, n));
      if n < |slots| then (t, false) else OpenTable(cfg, t, nodes[1..])
  }

  method OpenSlots(cfg: Config, node: string, slots: NodeShares) returns (unsealed: NodeShares, ok: bool)
    ensures unsealed == OpenFirst(cfg, node, slots, FirstFailure(cfg, node, slots))
    ensures ok <==> FirstFailure(cfg, node, slots) == |slots|
  {
    unsealed, ok := slots, true;
    for k := 0 to |slots|
      invariant unsealed == OpenFirst(cfg, node, slots, k)
      invariant forall j | 0 <= j < k :: Opens(cfg, node, slots[j].1)
    {
      var opening := cfg.decrypt(node, slots[k].1.sealed);
      if opening.Refused? {
        ok := false;
        return;
      }
      unsealed := unsealed[k := (slots[k].0, slots[k].1.(decrypted := InSlot(opening)))];
    }
  }

  method OpenAll(cfg: Config, shares: ShareTable) returns (unsealed: ShareTable, ok: bool)
    ensures (unsealed, ok) == OpenTable(cfg, shares, cfg.nodes)
  {
    unsealed, ok := shares, true;
    assert cfg.nodes[0..] == cfg.nodes;
    for i := 0 to |cfg.nodes|
      invariant OpenTable(cfg, shares, cfg.nodes) == OpenTable(cfg, unsealed, cfg.nodes[i..])
    {
      var node := cfg.nodes[i];
      assert cfg.nodes[i..][0] == node && cfg.nodes[i..][1..] == cfg.nodes[i + 1..];
      if !Has(unsealed, node) { continue; }
      var slots;
      slots, ok := OpenSlots(cfg, node, Get(unsealed, node));
      unsealed := Put(unsealed, node, slots);
      if !ok { return; }
    }
  }

  // ---------- storing the nodes' answers ----------

  function ApplyShares(slots: NodeShares, shares: OrderedMap<string, Option<OpenShare>>): NodeShares {
    if shares == [] then slots
    else
      var n := |shares| - 1;
      var done := ApplyShares(slots, shares[..n]);
      var (id, share) := shares[n];
      if Has(done, id) then Put(done, id, Get(done, id).(decrypted := share)) else done
  }

  function ApplyReply(shares: ShareTable, r: Reply): ShareTable {
    if Has(shares, r.nodeId) then Put(shares, r.nodeId, ApplyShares(Get(shares, r.nodeId), r.shares)) else shares
  }

  function ApplyReplies(shares: ShareTable, replies: seq<Reply>): ShareTable {
    if replies == [] then shares
    else
      var n := |replies| - 1;
      ApplyReply(ApplyReplies(shares, replies[..n]), replies[n])
  }

  method ApplyAll(shares: ShareTable, replies: seq<Reply>) returns (t: ShareTable)
    ensures t == ApplyReplies(shares, replies)
  {
    t := shares;
    for i := 0 to |replies|
      invariant t == ApplyReplies(shares, replies[..i])
    {
      assert replies[..i + 1][..i] == replies[..i];
      var r := replies[i];
      if !Has(t, r.nodeId) { continue; }
      var slots := Get(t, r.nodeId);
      ghost var before := slots;
      for k := 0 to |r.shares|
        invariant slots == ApplyShares(before, r.shares[..k])
      {
        assert r.shares[..k + 1][..k] == r.shares[..k];
        var (id, share) := r.shares[k];
        if Has(slots, id) {
          slots := Put(slots, id, Get(slots, id).(decrypted := share));
        }
      }
      assert r.shares[..|r.shares|] == r.shares;
      t := Put(t, r.nodeId, slots);
    }
    assert replies[..|replies|] == replies;
  }

  // ---------- reconstruction from two shares per intent ----------

  /** The first two plaintext shares of an intent in node order, after those already found. */
  function Gather(shares: ShareTable, nodes: seq<string>, id: string, have: seq<OpenShare>): seq<OpenShare> {
    if nodes == [] then have
    else
      var share := Decrypted(shares, nodes[0], id);
      var have' := if share.Some? then have + [share.value] else have;
      if |have'| >= 2 then have' else Gather(shares, nodes[1..], id, have')
  }

  /** An amount can be computed from two shares that are numbers. */
  predicate Readable(have: seq<OpenShare>) {
    |have| >= 2 && forall k | 0 <= k < |have| :: have[k].Numbers?
  }

  predicate Enough(shares: ShareTable, nodes: seq<string>, intents: OrderedMap<string, MpcIntent>) {
    forall k | 0 <= k < |intents| :: CanRead(shares, nodes, intents[k])
  }

  predicate CanRead(shares: ShareTable, nodes: seq<string>, e: (string, MpcIntent)) {
    Readable(Gather(shares, nodes, e.0, []))
  }

  /** Intent k is the first whose amount cannot be computed, and that for a share that is not numbers. */
  predicate ThrowsAt(shares: ShareTable, nodes: seq<string>, intents: OrderedMap<string, MpcIntent>, k: nat)
    requires k < |intents|
  {
    && |Gather(shares, nodes, intents[k].0, [])| >= 2 && !CanRead(shares, nodes, intents[k])
    && forall j | 0 <= j < k :: CanRead(shares, nodes, intents[j])
  }

  predicate Throws(shares: ShareTable, nodes: seq<string>, intents: OrderedMap<string, MpcIntent>) {
    exists k | 0 <= k < |intents| :: ThrowsAt(shares, nodes, intents, k)
  }

  function SharesOf(have: seq<OpenShare>): seq<Share>
    requires Readable(have)
  {
    seq(|have|, k requires 0 <= k < |have| => have[k].share)
  }

  function Plain(intent: MpcIntent, id: string, amount: int): Netting.Intent {
    Netting.Intent(id, amount, intent.inputAsset, intent.outputAsset)
  }

  function PlainAt(shares: ShareTable, nodes: seq<string>, e: (string, MpcIntent)): Netting.Intent
    requires CanRead(shares, nodes, e)
  {
    Plain(e.1, e.0, Shamir.Reconstruct(SharesOf(Gather(shares, nodes, e.0, [])), Shamir.FIELD_ORDER))
  }

  function Reconstructed(shares: ShareTable, nodes: seq<string>, intents: OrderedMap<string, MpcIntent>)
    : seq<Netting.Intent>
    requires Enough(shares, nodes, intents)
  {
    seq(|intents|, k requires 0 <= k < |intents| => PlainAt(shares, nodes, intents[k]))
  }

  method GatherLoop(shares: ShareTable, nodes: seq<string>, id: string) returns (have: seq<OpenShare>)
    ensures have == Gather(shares, nodes, id, [])
  {
    have := [];
    assert nodes[0..] == nodes;
    for i := 0 to |nodes|
      invariant Gather(shares, nodes, id, []) == Gather(shares, nodes[i..], id, have)
    {
      assert nodes[i..][0] == nodes[i] && nodes[i..][1..] == nodes[i + 1..];
      var share := Decrypted(shares, nodes[i], id);
      if share.Some? { have := have + [share.value]; }
      if |have| >= 2 { return; }
    }
  }

  datatype Reading<T> = Complete(value: T) | Short | Unreadable

  method ReadIntent(shares: ShareTable, nodes: seq<string>, e: (string, MpcIntent)) returns (r: Reading<Netting.Intent>)
    ensures r.Short? <==> |Gather(shares, nodes, e.0, [])| < 2
    ensures r.Complete? <==> CanRead(shares, nodes, e)
    ensures r.Complete? ==> r.value == PlainAt(shares, nodes, e)
  {
    var have := GatherLoop(shares, nodes, e.0);
    if |have| < 2 { return Short; }
    if exists i | 0 <= i < |have| :: have[i].Malformed? { return Unreadable; }
    var amount := Shamir.ReconstructLoop(SharesOf(have), Shamir.FIELD_ORDER);
    r := Complete(Plain(e.1, e.0, amount));
  }

  /** The first intent whose amount cannot be computed decides how reconstruction ends. */
  lemma {:induction false} FirstTrouble(
    shares: ShareTable, nodes: seq<string>, intents: OrderedMap<string, MpcIntent>, k: nat)
    requires k < |intents| && !CanRead(shares, nodes, intents[k])
    requires forall j | 0 <= j < k :: CanRead(shares, nodes, intents[j])
    ensures !Enough(shares, nodes, intents)
    ensures Throws(shares, nodes, intents) <==> |Gather(shares, nodes, intents[k].0, [])| >= 2
  {
    if |Gather(shares, nodes, intents[k].0, [])| >= 2 { assert ThrowsAt(shares, nodes, intents, k); }
  }

  lemma {:induction false} NoTrouble(shares: ShareTable, nodes: seq<string>, intents: OrderedMap<string, MpcIntent>)
    requires Enough(shares, nodes, intents)
    ensures !Throws(shares, nodes, intents)
  {
  }

  method ReconstructAll(shares: ShareTable, nodes: seq<string>, intents: OrderedMap<string, MpcIntent>)
    returns (r: Reading<seq<Netting.Intent>>)
    ensures r.Complete? <==> Enough(shares, nodes, intents)
    ensures r.Unreadable? <==> Throws(shares, nodes, intents)
    ensures r.Complete? ==> r.value == Reconstructed(shares, nodes, intents)
  {
    var plain := [];
    for k := 0 to |intents|
      invariant forall j | 0 <= j < k :: CanRead(shares, nodes, intents[j])
      invariant |plain| == k
      invariant forall j | 0 <= j < k :: plain[j] == PlainAt(shares, nodes, intents[j])
    {
      var one := ReadIntent(shares, nodes, intents[k]);
      if !one.Complete? {
        FirstTrouble(shares, nodes, intents, k);
        return if one.Short? then Short else Unreadable;
      }
      plain := plain + [one.value];
    }
    assert forall j | 0 <= j < |intents| :: plain[j] == Reconstructed(shares, nodes, intents)[j];
    NoTrouble(shares, nodes, intents);
    r := Complete(plain);
  }

  // ---------- clearing ----------

  function Cleared(slots: NodeShares): NodeShares {
    seq(|slots|, k requires 0 <= k < |slots| => (slots[k].0, slots[k].1.(decrypted := None)))
  }

  function Clear(shares: ShareTable, nodes: seq<string>): ShareTable {
    if nodes == [] then shares
    else
      var n := |nodes| - 1;
      var t := Clear(shares, nodes[..n]);
      if Has(t, nodes[n]) then Put(t, nodes[n], Cleared(Get(t, nodes[n]))) else t
  }

  method ClearAll(shares: ShareTable, nodes: seq<string>) returns (t: ShareTable)
    ensures t == Clear(shares, nodes)
  {
    t := shares;
    for i := 0 to |nodes|
      invariant t == Clear(shares, nodes[..i])
    {
      assert nodes[..i + 1][..i] == nodes[..i];
      if !Has(t, nodes[i]) { continue; }
      var slots := Get(t, nodes[i]);
      var cleared := slots;
      for k := 0 to |slots|
        invariant |cleared| == |slots|
        invariant forall j | 0 <= j < |slots| :: cleared[j] == if j < k then Cleared(slots)[j] else slots[j]
      {
        cleared := cleared[k := (slots[k].0, slots[k].1.(decrypted := None))];
      }
      assert cleared == Cleared(slots);
      t := Put(t, nodes[i], cleared);
    }
    assert nodes[..|nodes|] == nodes;
  }

  // ---------- whole rounds ----------

  function MatchesFor(cfg: Config, shares: ShareTable, intents: OrderedMap<string, MpcIntent>): seq<Netting.MatchResult>
    requires Enough(shares, cfg.nodes, intents)
  {
    Netting.RenderAll(Netting.Matching(cfg.sort, Reconstructed(shares, cfg.nodes, intents)))
  }

  function SignAll(cfg: Config, batchId: string, matches: seq<Netting.MatchResult>): seq<Signature> {
    seq(|cfg.nodes|, i requires 0 <= i < |cfg.nodes| => cfg.sign(cfg.nodes[i], batchId, matches))
  }

  function Sealed(s: Session, b: Batch): Session {
    s.(batch := Some(b), status := Signed)
  }

  /** The in-process round: open every share, reconstruct, clear, match, and sign with every node. When
      reconstruction throws, the session stays in matching with its plaintext shares. */
  function LocalRound(cfg: Config, s: Session, batchId: string): (Session, Outcome) {
    if |s.intents| < 2 then (s, NeedTwoIntents)
    else
      var (t, ok) := OpenTable(cfg, s.shares, cfg.nodes);
      if !ok then (s.(shares := t, status := Failed), DecryptFailed)
      else if Throws(t, cfg.nodes, s.intents) then (s.(shares := t, status := Matching), Threw)
      else if !Enough(t, cfg.nodes, s.intents) then (s.(shares := t, status := Failed), TooFewShares)
      else
        var matches := MatchesFor(cfg, t, s.intents);
        var b := Batch(batchId, s.sessionId, matches, SignAll(cfg, batchId, matches));
        (Sealed(s.(shares := Clear(t, cfg.nodes)), b), Produced(b))
  }

  datatype Progress = Stopped(outcome: Outcome) | Continues(matches: seq<Netting.MatchResult>)

  /** The remote round between the answers to the decryption request and the request to sign. */
  function RemoteDecrypted(cfg: Config, s: Session, replies: seq<Option<Reply>>): (Session, Progress) {
    var responding := Present(replies);
    if |responding| < Threshold(|cfg.nodes|) then (s.(status := Failed), Stopped(TooFewNodes))
    else
      var t := ApplyReplies(s.shares, responding);
      if Throws(t, cfg.nodes, s.intents) then (s.(shares := t), Stopped(Threw))
      else if !Enough(t, cfg.nodes, s.intents) then (s.(shares := t, status := Failed), Stopped(TooFewShares))
      else (s.(shares := Clear(t, cfg.nodes)), Continues(MatchesFor(cfg, t, s.intents)))
  }

  /** The remote round after the answers to the request to sign. */
  function RemoteSigned(
    cfg: Config, s: Session, batchId: string, matches: seq<Netting.MatchResult>, sigs: seq<Option<Signature>>)
    : (Session, Outcome)
  {
    var signatures := Present(sigs);
    if |signatures| < Threshold(|cfg.nodes|) then (s.(status := Failed), TooFewSignatures)
    else
      var b := Batch(batchId, s.sessionId, matches, signatures);
      (Sealed(s, b), Produced(b))
  }

  /** The remote round as a whole, given every answer the nodes send. */
  function RemoteRound(
    cfg: Config, s: Session, replies: seq<Option<Reply>>, batchId: string, sigs: seq<Option<Signature>>)
    : (Session, Outcome)
  {
    if |s.intents| < 2 then (s, NeedTwoIntents)
    else
      var (s1, progress) := RemoteDecrypted(cfg, s.(status := Matching), replies);
      match progress
      case Stopped(o) => (s1, o)
      case Continues(matches) => RemoteSigned(cfg, s1, batchId, matches, sigs)
  }
}
