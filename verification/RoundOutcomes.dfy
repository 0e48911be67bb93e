/** How a round ends, each outcome with its exact condition, what a signed batch holds, and what a round
    leaves of the session. */
module RoundOutcomes {
  import opened JsMap
  import opened Sessions
  import opened Rounds
  import opened RoundProofs
  import Netting
  import Shamir

  /** The amount two numeric shares stand for. */
  ghost function AmountOf(offer: seq<Option<OpenShare>>): int
    requires Readable(FirstTwo(Present(offer)))
  {
    var two := FirstTwo(Present(offer));
    Shamir.Reconstruct([two[0].share, two[1].share], Shamir.FIELD_ORDER)
  }

  /** The intents of a session with the amounts their offers stand for. */
  ghost function WithAmounts(intents: OrderedMap<string, MpcIntent>, offers: seq<seq<Option<OpenShare>>>)
    : seq<Netting.Intent>
    requires |offers| == |intents| && AllReadable(offers)
  {
    seq(|intents|, k requires 0 <= k < |intents| =>
      Netting.Intent(intents[k].0, AmountOf(offers[k]), intents[k].1.inputAsset, intents[k].1.outputAsset))
  }

  ghost function MatchesOn(
    cfg: Config, intents: OrderedMap<string, MpcIntent>, offers: seq<seq<Option<OpenShare>>>): seq<Netting.MatchResult>
    requires |offers| == |intents| && AllReadable(offers)
  {
    Netting.RenderAll(Netting.Matching(cfg.sort, WithAmounts(intents, offers)))
  }

  lemma {:induction false} AmountsFromOffers(
    shares: ShareTable, nodes: seq<string>, intents: OrderedMap<string, MpcIntent>, offers: seq<seq<Option<OpenShare>>>)
    requires |offers| == |intents| && forall k | 0 <= k < |intents| :: Plains(shares, nodes, intents[k].0) == offers[k]
    requires AllReadable(offers)
    ensures Enough(shares, nodes, intents) && Reconstructed(shares, nodes, intents) == WithAmounts(intents, offers)
  {
    ReadingByOffers(shares, nodes, intents, offers);
    forall k | 0 <= k < |intents| ensures Reconstructed(shares, nodes, intents)[k] == WithAmounts(intents, offers)[k] {
      GatherIsFirstTwo(shares, nodes, intents[k].0);
      var two := FirstTwo(Present(offers[k]));
      assert SharesOf(two) == [two[0].share, two[1].share];
    }
  }

  // ---------- in process ----------

  lemma {:induction false} StoredPlains(cfg: Config, s: Session)
    requires DistinctNodes(cfg.nodes) && AllOpen(cfg, s.shares, cfg.nodes)
    ensures forall k | 0 <= k < |s.intents| ::
              Plains(OpenTable(cfg, s.shares, cfg.nodes).0, cfg.nodes, s.intents[k].0) == Stored(cfg, s)[k]
  {
    var t := OpenTable(cfg, s.shares, cfg.nodes).0;
    forall k, i | 0 <= k < |s.intents| && 0 <= i < |cfg.nodes|
      ensures Plains(t, cfg.nodes, s.intents[k].0)[i] == Stored(cfg, s)[k][i]
    {
      OpenTableFills(cfg, s.shares, cfg.nodes, i, s.intents[k].0);
    }
  }

  /** How an in-process round ends. */
  lemma {:induction false} LocalOutcomes(cfg: Config, s: Session, batchId: string)
    requires DistinctNodes(cfg.nodes)
    ensures var (s', o), two, all := LocalRound(cfg, s, batchId), |s.intents| >= 2, AllOpen(cfg, s.shares, cfg.nodes);
            && (o.NeedTwoIntents? <==> !two)
            && (o.DecryptFailed? <==> two && !all)
            && (o.Threw? <==> two && all && MalformedFirst(Stored(cfg, s)))
            && (o.TooFewShares? <==> two && all && !AllReadable(Stored(cfg, s)) && !MalformedFirst(Stored(cfg, s)))
            && (o.Produced? <==> two && all && AllReadable(Stored(cfg, s)))
            && s'.status == (if o.Produced? then Signed else if o.Threw? then Matching
                             else if o.NeedTwoIntents? then s.status else Failed)
            && s'.batch == (if o.Produced? then Some(o.batch) else s.batch)
            && s'.sessionId == s.sessionId && s'.intents == s.intents
  {
    OpenTableIff(cfg, s.shares, cfg.nodes);
    if AllOpen(cfg, s.shares, cfg.nodes) {
      StoredIsRead(cfg, s);
      if AllReadable(Stored(cfg, s)) { NoTrouble(OpenTable(cfg, s.shares, cfg.nodes).0, cfg.nodes, s.intents); }
    }
  }

  /** A batch signed in process carries its ids, the matches of the amounts the stored shares stand for,
      and one signature of every node over just these, in node order. */
  lemma {:induction false} LocalBatch(cfg: Config, s: Session, batchId: string)
    requires DistinctNodes(cfg.nodes) && LocalRound(cfg, s, batchId).1.Produced?
    ensures AllReadable(Stored(cfg, s))
    ensures var b := LocalRound(cfg, s, batchId).1.batch;
            && b.batchId == batchId && b.sessionId == s.sessionId
            && b.matches == MatchesOn(cfg, s.intents, Stored(cfg, s))
            && |b.signatures| == |cfg.nodes|
            && forall i | 0 <= i < |cfg.nodes| :: b.signatures[i] == cfg.sign(cfg.nodes[i], batchId, b.matches)
  {
    LocalOutcomes(cfg, s, batchId);
    StoredPlains(cfg, s);
    AmountsFromOffers(OpenTable(cfg, s.shares, cfg.nodes).0, cfg.nodes, s.intents, Stored(cfg, s));
  }

  // ---------- over the network ----------

  lemma {:induction false} AnsweredPlains(cfg: Config, s: Session, replies: seq<Option<Reply>>)
    requires DistinctNodes(cfg.nodes) && OwnAnswers(cfg, replies) && NoPlaintext(s.shares)
    ensures forall k | 0 <= k < |s.intents| ::
              Plains(ApplyReplies(s.shares, Present(replies)), cfg.nodes, s.intents[k].0) == Answers(cfg, s, replies)[k]
  {
    var t := ApplyReplies(s.shares, Present(replies));
    assert replies[..|replies|] == replies;
    AfterIsApplied(s.shares, replies, |replies|);
    forall k, i | 0 <= k < |s.intents| && 0 <= i < |cfg.nodes|
      ensures Plains(t, cfg.nodes, s.intents[k].0)[i] == Answers(cfg, s, replies)[k][i]
    {
      assert Decrypted(s.shares, cfg.nodes[i], s.intents[k].0).None?;
      AnswersStored(cfg, s.shares, replies, |replies|, i, s.intents[k].0);
    }
  }

  lemma {:induction false} DecryptedOutcomes(cfg: Config, s: Session, replies: seq<Option<Reply>>)
    requires DistinctNodes(cfg.nodes) && OwnAnswers(cfg, replies) && NoPlaintext(s.shares) && s.status == Matching
    ensures var (s', p), many := RemoteDecrypted(cfg, s, replies), |Present(replies)| >= Threshold(|cfg.nodes|);
            && (p == Stopped(TooFewNodes) <==> !many)
            && (p == Stopped(Threw) <==> many && MalformedFirst(Answers(cfg, s, replies)))
            && (p.Continues? <==> many && AllReadable(Answers(cfg, s, replies)))
            && (p.Stopped? ==> p.outcome in {TooFewNodes, Threw, TooFewShares})
            && s'.status == (if p.Continues? || p == Stopped(Threw) then Matching else Failed)
            && s' == s.(status := s'.status, shares := s'.shares)
            && (p.Continues? ==> p.matches == MatchesOn(cfg, s.intents, Answers(cfg, s, replies)))
  {
    AnswersAreRead(cfg, s, replies);
    var t := ApplyReplies(s.shares, Present(replies));
    if AllReadable(Answers(cfg, s, replies)) {
      NoTrouble(t, cfg.nodes, s.intents);
      AnsweredPlains(cfg, s, replies);
      AmountsFromOffers(t, cfg.nodes, s.intents, Answers(cfg, s, replies));
    }
  }

  /** How a remote round over a clean session ends, and what a signed batch carries: its ids, the matches
      of the amounts the answers stand for, and the signatures that came back, in node order. */
  lemma {:induction false} RemoteOutcomes(
    cfg: Config, s: Session, replies: seq<Option<Reply>>, batchId: string, sigs: seq<Option<Signature>>)
    requires DistinctNodes(cfg.nodes) && OwnAnswers(cfg, replies) && NoPlaintext(s.shares) && |s.intents| >= 2
    ensures var (s', o) := RemoteRound(cfg, s, replies, batchId, sigs);
            var many, offers := |Present(replies)| >= Threshold(|cfg.nodes|), Answers(cfg, s, replies);
            var signed := |Present(sigs)| >= Threshold(|cfg.nodes|);
            && (o.TooFewNodes? <==> !many)
            && (o.Threw? <==> many && MalformedFirst(offers))
            && (o.TooFewShares? <==> many && !AllReadable(offers) && !MalformedFirst(offers))
            && (o.TooFewSignatures? <==> many && AllReadable(offers) && !signed)
            && (o.Produced? <==> many && AllReadable(offers) && signed)
            && s'.status == (if o.Produced? then Signed else if o.Threw? then Matching else Failed)
            && s'.batch == (if o.Produced? then Some(o.batch) else s.batch)
            && s'.sessionId == s.sessionId && s'.intents == s.intents
            && (o.Produced? ==>
                  o.batch == Batch(batchId, s.sessionId, MatchesOn(cfg, s.intents, offers), Present(sigs)))
  {
    var s1 := s.(status := Matching);
    assert Answers(cfg, s1, replies) == Answers(cfg, s, replies);
    DecryptedOutcomes(cfg, s1, replies);
  }

  // ---------- what plaintext a round leaves ----------

  lemma {:induction false} ClearedFor(shares: ShareTable, nodes: seq<string>, node: string, id: string)
    ensures Decrypted(Clear(shares, nodes), node, id) == if node in nodes then None else Decrypted(shares, node, id)
  {
    if nodes != [] {
      var n := |nodes| - 1;
      ClearedFor(shares, nodes[..n], node, id);
      var t := Clear(shares, nodes[..n]);
      assert nodes == nodes[..n] + [nodes[n]];
      if Has(t, nodes[n]) {
        SlotsOfPut(t, nodes[n], Cleared(Get(t, nodes[n])), node);
        ClearedAt(Get(t, nodes[n]), id);
      } else if node == nodes[n] {
        NoSlotNoPlain(t, node, id);
      }
    }
  }

  /** An in-process round that opens every share leaves nothing readable if it produces a batch, and every
      opened share readable if it fails or throws. */
  lemma {:induction false} LocalLeaves(cfg: Config, s: Session, batchId: string, i: nat, id: string)
    requires DistinctNodes(cfg.nodes) && |s.intents| >= 2 && AllOpen(cfg, s.shares, cfg.nodes) && i < |cfg.nodes|
    ensures var (s', o) := LocalRound(cfg, s, batchId);
            Decrypted(s'.shares, cfg.nodes[i], id) ==
              if o.Produced? then None else StoredFor(cfg, cfg.nodes[i], SlotsOf(s.shares, cfg.nodes[i]), id)
  {
    OpenTableIff(cfg, s.shares, cfg.nodes);
    OpenTableFills(cfg, s.shares, cfg.nodes, i, id);
    ClearedFor(OpenTable(cfg, s.shares, cfg.nodes).0, cfg.nodes, cfg.nodes[i], id);
  }

  /** The first n slots are opened, the others as they were. */
  ghost predicate OpenedUpto(cfg: Config, node: string, slots: NodeShares, slots': NodeShares, n: nat) {
    && |slots'| == |slots|
    && forall k | 0 <= k < |slots| ::
         && slots'[k].0 == slots[k].0 && slots'[k].1.sealed == slots[k].1.sealed
         && slots'[k].1.decrypted ==
              if k < n then InSlot(cfg.decrypt(node, slots[k].1.sealed)) else slots[k].1.decrypted
  }

  lemma {:induction false} StopsHere(cfg: Config, shares: ShareTable, nodes: seq<string>, k: nat)
    requires nodes != [] && DistinctNodes(nodes) && Has(shares, nodes[0])
    requires k == FirstFailure(cfg, nodes[0], Get(shares, nodes[0])) < |Get(shares, nodes[0])|
    ensures var t := OpenTable(cfg, shares, nodes).0;
            && OpenedUpto(cfg, nodes[0], SlotsOf(shares, nodes[0]), SlotsOf(t, nodes[0]), k)
            && forall i | 1 <= i < |nodes| :: SlotsOf(t, nodes[i]) == SlotsOf(shares, nodes[i])
  {
    var slots := OpenFirst(cfg, nodes[0], Get(shares, nodes[0]), k);
    SlotsOfPut(shares, nodes[0], slots, nodes[0]);
    forall i | 1 <= i < |nodes| ensures SlotsOf(Put(shares, nodes[0], slots), nodes[i]) == SlotsOf(shares, nodes[i]) {
      SlotsOfPut(shares, nodes[0], slots, nodes[i]);
    }
  }

  /** The table left by the nodes before one that refuses: all their slots opened. */
  ghost predicate StoppedAt(cfg: Config, shares: ShareTable, t: ShareTable, nodes: seq<string>, m: nat, k: nat) {
    && m < |nodes| && k < |SlotsOf(shares, nodes[m])| && !Opens(cfg, nodes[m], SlotsOf(shares, nodes[m])[k].1)
    && forall i | 0 <= i < |nodes| ::
         var slots := SlotsOf(shares, nodes[i]);
         OpenedUpto(cfg, nodes[i], slots, SlotsOf(t, nodes[i]), if i < m then |slots| else if i == m then k else 0)
  }

  lemma {:induction false} OpenStops(cfg: Config, shares: ShareTable, nodes: seq<string>) returns (m: nat, k: nat)
    requires DistinctNodes(nodes) && !OpenTable(cfg, shares, nodes).1
    ensures StoppedAt(cfg, shares, OpenTable(cfg, shares, nodes).0, nodes, m, k)
    decreases |nodes|
  {
    var slots := SlotsOf(shares, nodes[0]);
    if Has(shares, nodes[0]) && FirstFailure(cfg, nodes[0], slots) < |slots| {
      m, k := 0, FirstFailure(cfg, nodes[0], slots);
      StopsHere(cfg, shares, nodes, k);
    } else {
      var unsealed := OpenFirst(cfg, nodes[0], slots, |slots|);
      var t := if Has(shares, nodes[0]) then Put(shares, nodes[0], unsealed) else shares;
      m, k := OpenStops(cfg, t, nodes[1..]);
      StopsLater(cfg, shares, t, nodes, m, k);
      m := m + 1;
    }
  }

  lemma {:induction false} StopsLater(
    cfg: Config, shares: ShareTable, t: ShareTable, nodes: seq<string>, m: nat, k: nat)
    requires nodes != [] && DistinctNodes(nodes)
    requires var slots := SlotsOf(shares, nodes[0]);
             && (Has(shares, nodes[0]) ==> FirstFailure(cfg, nodes[0], slots) == |slots|)
             && t == if Has(shares, nodes[0]) then Put(shares, nodes[0], OpenFirst(cfg, nodes[0], slots, |slots|))
                     else shares
    requires StoppedAt(cfg, t, OpenTable(cfg, t, nodes[1..]).0, nodes[1..], m, k)
    ensures StoppedAt(cfg, shares, OpenTable(cfg, shares, nodes).0, nodes, m + 1, k)
  {
    var slots, last := SlotsOf(shares, nodes[0]), OpenTable(cfg, t, nodes[1..]).0;
    assert OpenTable(cfg, shares, nodes).0 == last;
    if Has(shares, nodes[0]) {
      OpenRest(cfg, shares, nodes, OpenFirst(cfg, nodes[0], slots, |slots|));
    } else {
      OpenTableElsewhere(cfg, shares, nodes[1..], nodes[0]);
    }
    assert OpenedUpto(cfg, nodes[0], slots, SlotsOf(last, nodes[0]), |slots|);
    forall i | 1 <= i < |nodes|
      ensures nodes[1..][i - 1] == nodes[i] && SlotsOf(t, nodes[i]) == SlotsOf(shares, nodes[i])
    {
      if Has(shares, nodes[0]) { assert SlotsOf(t, nodes[1..][i - 1]) == SlotsOf(shares, nodes[i]); }
    }
  }

  /** A round stopped by a share that does not open leaves every share it opened before readable: those of
      the nodes before, and the slots before in the same node. */
  lemma {:induction false} RefusedLeaves(cfg: Config, s: Session, batchId: string) returns (m: nat, k: nat)
    requires DistinctNodes(cfg.nodes) && LocalRound(cfg, s, batchId).1.DecryptFailed?
    ensures StoppedAt(cfg, s.shares, LocalRound(cfg, s, batchId).0.shares, cfg.nodes, m, k)
  {
    m, k := OpenStops(cfg, s.shares, cfg.nodes);
  }

  lemma {:induction false} DecryptedTables(cfg: Config, s: Session, replies: seq<Option<Reply>>)
    ensures var (s', p), t := RemoteDecrypted(cfg, s, replies), ApplyReplies(s.shares, Present(replies));
            && (p.Stopped? ==> p.outcome in {TooFewNodes, TooFewShares, Threw})
            && s'.shares == if p == Stopped(TooFewNodes) then s.shares
                            else if p.Stopped? then t else Clear(t, cfg.nodes)
  {
  }

  lemma {:induction false} RemoteTables(
    cfg: Config, s: Session, replies: seq<Option<Reply>>, batchId: string, sigs: seq<Option<Signature>>)
    requires |s.intents| >= 2
    ensures var (s', o), t := RemoteRound(cfg, s, replies, batchId, sigs), ApplyReplies(s.shares, Present(replies));
            s'.shares == if o.TooFewNodes? then s.shares
                         else if o.TooFewShares? || o.Threw? then t else Clear(t, cfg.nodes)
  {
    DecryptedTables(cfg, s.(status := Matching), replies);
  }

  lemma {:induction false} AnswerLeft(
    cfg: Config, shares: ShareTable, replies: seq<Option<Reply>>, i: nat, id: string)
    requires DistinctNodes(cfg.nodes) && OwnAnswers(cfg, replies) && i < |cfg.nodes|
    requires Decrypted(shares, cfg.nodes[i], id).None?
    ensures Decrypted(ApplyReplies(shares, Present(replies)), cfg.nodes[i], id)
         == AnswerFor(cfg, shares, replies, i, id)
  {
    AfterIsApplied(shares, replies, |replies|);
    assert replies[..|replies|] == replies;
    AnswersStored(cfg, shares, replies, |replies|, i, id);
  }

  /** A remote round leaves the answers readable if the shares do not suffice or are malformed, and
      otherwise nothing. */
  lemma {:induction false} RemoteLeaves(
    cfg: Config, s: Session, replies: seq<Option<Reply>>, batchId: string, sigs: seq<Option<Signature>>,
    i: nat, id: string)
    requires DistinctNodes(cfg.nodes) && OwnAnswers(cfg, replies) && NoPlaintext(s.shares) && |s.intents| >= 2
    requires i < |cfg.nodes|
    ensures var (s', o) := RemoteRound(cfg, s, replies, batchId, sigs);
            Decrypted(s'.shares, cfg.nodes[i], id) ==
              if o.TooFewShares? || o.Threw? then AnswerFor(cfg, s.shares, replies, i, id) else None
  {
    assert Decrypted(s.shares, cfg.nodes[i], id).None?;
    RemoteTables(cfg, s, replies, batchId, sigs);
    AnswerLeft(cfg, s.shares, replies, i, id);
    ClearedFor(ApplyReplies(s.shares, Present(replies)), cfg.nodes, cfg.nodes[i], id);
  }

  // ---------- sealed shares stay ----------

  ghost function SealedAt(shares: ShareTable, node: string, id: string): Option<SealedShare> {
    var slots := SlotsOf(shares, node); if Has(slots, id) then Some(Get(slots, id).sealed) else None
  }

  /** A node's slots hold the same sealed shares under the same ids. */
  ghost predicate SameSealed(slots: NodeShares, slots': NodeShares) {
    && |slots'| == |slots|
    && forall k | 0 <= k < |slots| :: slots'[k].0 == slots[k].0 && slots'[k].1.sealed == slots[k].1.sealed
  }

  ghost predicate AllSealed(shares: ShareTable, shares': ShareTable) {
    forall node :: SameSealed(SlotsOf(shares, node), SlotsOf(shares', node))
  }

  lemma {:induction false} SealedAtSame(shares: ShareTable, shares': ShareTable, node: string, id: string)
    requires AllSealed(shares, shares')
    ensures SealedAt(shares', node, id) == SealedAt(shares, node, id)
  {
    assert SameSealed(SlotsOf(shares, node), SlotsOf(shares', node));
    SameKeysSameIndex(SlotsOf(shares, node), SlotsOf(shares', node), id);
  }

  lemma {:induction false} PutSealed(shares: ShareTable, node: string, slots: NodeShares)
    requires SameSealed(SlotsOf(shares, node), slots)
    ensures AllSealed(shares, Put(shares, node, slots))
  {
    forall n ensures SameSealed(SlotsOf(shares, n), SlotsOf(Put(shares, node, slots), n)) {
      SlotsOfPut(shares, node, slots, n);
    }
  }

  lemma {:induction false} SealedOn(a: ShareTable, b: ShareTable, c: ShareTable)
    requires AllSealed(a, b) && AllSealed(b, c)
    ensures AllSealed(a, c)
  {
    forall node ensures SameSealed(SlotsOf(a, node), SlotsOf(c, node)) {
      assert SameSealed(SlotsOf(a, node), SlotsOf(b, node)) && SameSealed(SlotsOf(b, node), SlotsOf(c, node));
    }
  }

  lemma {:induction false} OpenKeepsSealed(cfg: Config, shares: ShareTable, nodes: seq<string>)
    ensures AllSealed(shares, OpenTable(cfg, shares, nodes).0)
    decreases |nodes|
  {
    if nodes != [] {
      if Has(shares, nodes[0]) {
        var slots := Get(shares, nodes[0]);
        var t := Put(shares, nodes[0], OpenFirst(cfg, nodes[0], slots, FirstFailure(cfg, nodes[0], slots)));
        PutSealed(shares, nodes[0], OpenFirst(cfg, nodes[0], slots, FirstFailure(cfg, nodes[0], slots)));
        OpenKeepsSealed(cfg, t, nodes[1..]);
        SealedOn(shares, t, OpenTable(cfg, t, nodes[1..]).0);
      } else {
        OpenKeepsSealed(cfg, shares, nodes[1..]);
      }
    }
  }

  lemma {:induction false} ClearKeepsSealed(shares: ShareTable, nodes: seq<string>)
    ensures AllSealed(shares, Clear(shares, nodes))
  {
    if nodes != [] {
      var n := |nodes| - 1;
      ClearKeepsSealed(shares, nodes[..n]);
      var t := Clear(shares, nodes[..n]);
      if Has(t, nodes[n]) {
        PutSealed(t, nodes[n], Cleared(Get(t, nodes[n])));
        SealedOn(shares, t, Clear(shares, nodes));
      }
    }
  }

  lemma {:induction false} ApplySharesSealed(slots: NodeShares, shares: OrderedMap<string, Option<OpenShare>>)
    ensures SameSealed(slots, ApplyShares(slots, shares))
  {
    if shares != [] { ApplySharesSealed(slots, shares[..|shares| - 1]); }
  }

  lemma {:induction false} RepliesKeepSealed(shares: ShareTable, replies: seq<Reply>)
    ensures AllSealed(shares, ApplyReplies(shares, replies))
  {
    if replies != [] {
      var n := |replies| - 1;
      RepliesKeepSealed(shares, replies[..n]);
      var t, r := ApplyReplies(shares, replies[..n]), replies[n];
      if Has(t, r.nodeId) {
        ApplySharesSealed(Get(t, r.nodeId), r.shares);
        PutSealed(t, r.nodeId, ApplyShares(Get(t, r.nodeId), r.shares));
        SealedOn(shares, t, ApplyReplies(shares, replies));
      }
    }
  }

  lemma {:induction false} SealedStays(shares: ShareTable)
    ensures AllSealed(shares, shares)
  {
  }

  lemma {:induction false} LocalKeepsSealed(cfg: Config, s: Session, batchId: string)
    ensures AllSealed(s.shares, LocalRound(cfg, s, batchId).0.shares)
  {
    var t := OpenTable(cfg, s.shares, cfg.nodes).0;
    SealedStays(s.shares);
    OpenKeepsSealed(cfg, s.shares, cfg.nodes);
    ClearKeepsSealed(t, cfg.nodes);
    SealedOn(s.shares, t, Clear(t, cfg.nodes));
  }

  lemma {:induction false} RemoteKeepsSealed(
    cfg: Config, s: Session, replies: seq<Option<Reply>>, batchId: string, sigs: seq<Option<Signature>>)
    ensures AllSealed(s.shares, RemoteRound(cfg, s, replies, batchId, sigs).0.shares)
  {
    var t := ApplyReplies(s.shares, Present(replies));
    SealedStays(s.shares);
    RepliesKeepSealed(s.shares, Present(replies));
    ClearKeepsSealed(t, cfg.nodes);
    SealedOn(s.shares, t, Clear(t, cfg.nodes));
  }

  /** No round, however it ends, changes, adds or drops a sealed share. */
  lemma {:induction false} RoundsKeepSealed(
    cfg: Config, s: Session, replies: seq<Option<Reply>>, batchId: string, sigs: seq<Option<Signature>>,
    node: string, id: string)
    ensures SealedAt(LocalRound(cfg, s, batchId).0.shares, node, id) == SealedAt(s.shares, node, id)
    ensures SealedAt(RemoteRound(cfg, s, replies, batchId, sigs).0.shares, node, id) == SealedAt(s.shares, node, id)
  {
    LocalKeepsSealed(cfg, s, batchId);
    RemoteKeepsSealed(cfg, s, replies, batchId, sigs);
    SealedAtSame(s.shares, LocalRound(cfg, s, batchId).0.shares, node, id);
    SealedAtSame(s.shares, RemoteRound(cfg, s, replies, batchId, sigs).0.shares, node, id);
  }
}
