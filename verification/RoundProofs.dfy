/** Facts about single rounds: plaintext hygiene, agreement of the remote and the in-process round
    with the plaintext amounts, and the exact number of node failures a round survives. */
module RoundProofs {
  import opened JsMap
  import opened Sessions
  import opened Rounds
  import Netting
  import Shamir

  ghost function NodeSet(nodes: seq<string>): set<string> {
    set n | n in nodes
  }

  // ---------- what each phase does to one slot ----------

  lemma {:induction false} SameKeysSameIndex<V>(m: OrderedMap<string, V>, m': OrderedMap<string, V>, k: string)
    requires |m| == |m'| && forall i | 0 <= i < |m| :: m[i].0 == m'[i].0
    ensures Index(m, k) == Index(m', k)
  {
    if m != [] && m[0].0 != k {
      SameKeysSameIndex(m[1..], m'[1..], k);
    }
  }

  lemma {:induction false} OpenFirstAt(cfg: Config, node: string, slots: NodeShares, n: nat, id: string)
    requires n <= FirstFailure(cfg, node, slots)
    ensures var slots' := OpenFirst(cfg, node, slots, n);
            && Has(slots', id) == Has(slots, id)
            && (Has(slots, id) ==> Get(slots', id).sealed == Get(slots, id).sealed)
            && (PlainIn(slots', id) == PlainIn(slots, id)
                || (Has(slots, id) && PlainIn(slots', id) == InSlot(cfg.decrypt(node, Get(slots, id).sealed))))
  {
    SameKeysSameIndex(slots, OpenFirst(cfg, node, slots, n), id);
  }

  lemma {:induction false} ClearedAt(slots: NodeShares, id: string)
    ensures PlainIn(Cleared(slots), id) == None
  {
    SameKeysSameIndex(slots, Cleared(slots), id);
  }

  /** A slot after a node's answer holds what it held before or what the answer gave for the intent. */
  lemma {:induction false} ApplySharesAt(slots: NodeShares, shares: OrderedMap<string, Option<OpenShare>>, id: string)
    ensures var slots' := ApplyShares(slots, shares);
            && Has(slots', id) == Has(slots, id)
            && (PlainIn(slots', id) == PlainIn(slots, id)
                || exists k :: 0 <= k < |shares| && shares[k].0 == id && PlainIn(slots', id) == shares[k].1)
            && (Has(slots, id) && Has(shares, id) && Unique(shares) ==> PlainIn(slots', id) == Get(shares, id))
  {
    if shares != [] {
      var n := |shares| - 1;
      ApplySharesAt(slots, shares[..n], id);
      var done := ApplyShares(slots, shares[..n]);
      var (key, share) := shares[n];
      if Has(done, key) {
        PlainInPut(done, key, Get(done, key).(decrypted := share), id);
        PutFind(done, key, Get(done, key).(decrypted := share), id);
        assert Find(ApplyShares(slots, shares), id).Some? <==> Has(ApplyShares(slots, shares), id);
        assert Find(done, id).Some? <==> Has(done, id);
      }
      if Has(shares, id) && Unique(shares) {
        if key == id {
          IndexAt(shares, n);
        } else {
          var i := Index(shares, id);
          assert shares[..n][i] == shares[i];
          IndexAt(shares[..n], i);
        }
      }
    }
  }

  // ---------- plaintext hygiene ----------

  lemma {:induction false} OpenTablePlaintext(cfg: Config, shares: ShareTable, nodes: seq<string>, allowed: set<string>)
    requires PlaintextOnlyFor(shares, allowed) && NodeSet(nodes) <= allowed
    ensures PlaintextOnlyFor(OpenTable(cfg, shares, nodes).0, allowed)
    decreases |nodes|
  {
    if nodes != [] {
      assert nodes[0] in NodeSet(nodes) && NodeSet(nodes[1..]) <= NodeSet(nodes);
      if !Has(shares, nodes[0]) {
        OpenTablePlaintext(cfg, shares, nodes[1..], allowed);
      } else {
        var slots := Get(shares, nodes[0]);
        var slots' := OpenFirst(cfg, nodes[0], slots, FirstFailure(cfg, nodes[0], slots));
        var t := Put(shares, nodes[0], slots');
        forall node, id | Decrypted(t, node, id).Some? ensures node in allowed {
          SlotsOfPut(shares, nodes[0], slots', node);
          assert Decrypted(shares, node, id) == PlainIn(SlotsOf(shares, node), id);
        }
        OpenTablePlaintext(cfg, t, nodes[1..], allowed);
      }
    }
  }

  lemma {:induction false} ApplyRepliesPlaintext(shares: ShareTable, replies: seq<Reply>, allowed: set<string>)
    requires PlaintextOnlyFor(shares, allowed) && forall r | r in replies :: r.nodeId in allowed
    ensures PlaintextOnlyFor(ApplyReplies(shares, replies), allowed)
  {
    if replies != [] {
      var n := |replies| - 1;
      ApplyRepliesPlaintext(shares, replies[..n], allowed);
      var t, r := ApplyReplies(shares, replies[..n]), replies[n];
      forall node, id | Decrypted(ApplyReply(t, r), node, id).Some? ensures node in allowed {
        assert Decrypted(t, node, id) == PlainIn(SlotsOf(t, node), id);
        if Has(t, r.nodeId) {
          SlotsOfPut(t, r.nodeId, ApplyShares(Get(t, r.nodeId), r.shares), node);
        }
      }
    }
  }

  lemma {:induction false} ClearPlaintext(shares: ShareTable, nodes: seq<string>, allowed: set<string>)
    requires PlaintextOnlyFor(shares, allowed)
    ensures PlaintextOnlyFor(Clear(shares, nodes), allowed - NodeSet(nodes))
  {
    if nodes != [] {
      var n := |nodes| - 1;
      ClearPlaintext(shares, nodes[..n], allowed);
      var t := Clear(shares, nodes[..n]);
      assert nodes == nodes[..n] + [nodes[n]];
      forall node, id | Decrypted(Clear(shares, nodes), node, id).Some? ensures node in allowed - NodeSet(nodes) {
        assert Decrypted(t, node, id) == PlainIn(SlotsOf(t, node), id);
        if Has(t, nodes[n]) {
          SlotsOfPut(t, nodes[n], Cleared(Get(t, nodes[n])), node);
          ClearedAt(Get(t, nodes[n]), id);
        }
      }
    }
  }

  /** A produced batch leaves no plaintext share behind, in process or over the network, provided
      the nodes that answered reported committee ids. */
  lemma {:induction false} ProducedIsClean(cfg: Config, s: Session, batchId: string, replies: seq<Option<Reply>>)
    requires NoPlaintext(s.shares)
    ensures LocalRound(cfg, s, batchId).1.Produced? ==> NoPlaintext(LocalRound(cfg, s, batchId).0.shares)
    ensures (forall r | r in Present(replies) :: r.nodeId in cfg.nodes) ==>
              RemoteDecrypted(cfg, s, replies).1.Continues? ==> NoPlaintext(RemoteDecrypted(cfg, s, replies).0.shares)
  {
    var all := NodeSet(cfg.nodes);
    assert PlaintextOnlyFor(s.shares, all);
    OpenTablePlaintext(cfg, s.shares, cfg.nodes, all);
    ClearPlaintext(OpenTable(cfg, s.shares, cfg.nodes).0, cfg.nodes, all);
    if forall r | r in Present(replies) :: r.nodeId in cfg.nodes {
      ApplyRepliesPlaintext(s.shares, Present(replies), all);
      ClearPlaintext(ApplyReplies(s.shares, Present(replies)), cfg.nodes, all);
    }
    assert all - NodeSet(cfg.nodes) == {};
  }

  // ---------- agreement with the plaintext amounts ----------

  /** How the submitters split their amounts: amount and random coefficient per intent. */
  datatype Dealing = Dealing(amount: string -> int, coefficient: string -> int)

  ghost function Dealt(d: Dealing, cfg: Config, i: nat, id: string): OpenShare
    requires i < |cfg.nodes|
  {
    Numbers(Shamir.Split(d.amount(id), d.coefficient(id), |cfg.nodes|, Shamir.FIELD_ORDER)[i])
  }

  ghost predicate DistinctNodes(nodes: seq<string>) {
    forall i, j | 0 <= i < j < |nodes| :: nodes[i] != nodes[j]
  }

  /** Node ids are distinct and the field separates the positions of the shares. */
  ghost predicate GoodCommittee(cfg: Config) {
    DistinctNodes(cfg.nodes) && Shamir.SeparatesPositions(Shamir.FIELD_ORDER, |cfg.nodes|)
  }

  /** Every plaintext share in the table is the one dealt to that node for that intent. */
  ghost predicate Consistent(d: Dealing, cfg: Config, shares: ShareTable) {
    forall i, id | 0 <= i < |cfg.nodes| && Decrypted(shares, cfg.nodes[i], id).Some? ::
      Decrypted(shares, cfg.nodes[i], id).value == Dealt(d, cfg, i, id)
  }

  /** A node that opens a stored share gets the share dealt to it. */
  ghost predicate OpensDealt(d: Dealing, cfg: Config, shares: ShareTable) {
    forall i, id | 0 <= i < |cfg.nodes| && Has(SlotsOf(shares, cfg.nodes[i]), id) ::
      InSlot(cfg.decrypt(cfg.nodes[i], Get(SlotsOf(shares, cfg.nodes[i]), id).sealed))
        in {None, Some(Dealt(d, cfg, i, id))}
  }

  /** Node i answers under its own id, and each share it gives is the one dealt to it. */
  ghost predicate AnswersDealt(d: Dealing, cfg: Config, replies: seq<Option<Reply>>) {
    && |replies| == |cfg.nodes|
    && forall i | 0 <= i < |replies| && replies[i].Some? ::
         && replies[i].value.nodeId == cfg.nodes[i]
         && forall k | 0 <= k < |replies[i].value.shares| ::
              replies[i].value.shares[k].1 in {None, Some(Dealt(d, cfg, i, replies[i].value.shares[k].0))}
  }

  lemma {:induction false} OpenTableConsistent(d: Dealing, cfg: Config, shares: ShareTable, nodes: seq<string>)
    requires Consistent(d, cfg, shares) && OpensDealt(d, cfg, shares)
    ensures Consistent(d, cfg, OpenTable(cfg, shares, nodes).0)
    decreases |nodes|
  {
    if nodes != [] {
      if !Has(shares, nodes[0]) {
        OpenTableConsistent(d, cfg, shares, nodes[1..]);
      } else {
        var slots := Get(shares, nodes[0]);
        var n := FirstFailure(cfg, nodes[0], slots);
        var t := Put(shares, nodes[0], OpenFirst(cfg, nodes[0], slots, n));
        forall i, id | 0 <= i < |cfg.nodes|
          ensures Decrypted(t, cfg.nodes[i], id) in {None, Some(Dealt(d, cfg, i, id))}
          ensures Has(SlotsOf(t, cfg.nodes[i]), id) ==>
                    Has(SlotsOf(shares, cfg.nodes[i]), id)
                    && Get(SlotsOf(t, cfg.nodes[i]), id).sealed == Get(SlotsOf(shares, cfg.nodes[i]), id).sealed
        {
          SlotsOfPut(shares, nodes[0], OpenFirst(cfg, nodes[0], slots, n), cfg.nodes[i]);
          OpenFirstAt(cfg, nodes[0], slots, n, id);
          assert Decrypted(shares, cfg.nodes[i], id) in {None, Some(Dealt(d, cfg, i, id))};
        }
        assert Consistent(d, cfg, t);
        OpenTableConsistent(d, cfg, t, nodes[1..]);
      }
    }
  }

  lemma {:induction false} ApplyReplyConsistent(d: Dealing, cfg: Config, shares: ShareTable, i: nat, r: Reply)
    requires GoodCommittee(cfg) && Consistent(d, cfg, shares) && i < |cfg.nodes| && r.nodeId == cfg.nodes[i]
    requires forall k | 0 <= k < |r.shares| :: r.shares[k].1 in {None, Some(Dealt(d, cfg, i, r.shares[k].0))}
    ensures Consistent(d, cfg, ApplyReply(shares, r))
  {
    if Has(shares, r.nodeId) {
      var slots := Get(shares, r.nodeId);
      forall j, id | 0 <= j < |cfg.nodes|
        ensures Decrypted(ApplyReply(shares, r), cfg.nodes[j], id) in {None, Some(Dealt(d, cfg, j, id))}
      {
        SlotsOfPut(shares, r.nodeId, ApplyShares(slots, r.shares), cfg.nodes[j]);
        ApplySharesAt(slots, r.shares, id);
        assert Decrypted(shares, cfg.nodes[j], id) in {None, Some(Dealt(d, cfg, j, id))};
      }
    }
  }

  lemma {:induction false} PresentSnoc<T>(replies: seq<Option<T>>, n: nat)
    requires 0 < n <= |replies|
    ensures Present(replies[..n])
         == Present(replies[..n - 1]) + if replies[n - 1].Some? then [replies[n - 1].value] else []
  {
    assert replies[..n][..n - 1] == replies[..n - 1];
  }

  lemma {:induction false} ApplySnoc(shares: ShareTable, replies: seq<Reply>, r: Reply)
    ensures ApplyReplies(shares, replies + [r]) == ApplyReply(ApplyReplies(shares, replies), r)
  {
    assert (replies + [r])[..|replies|] == replies;
  }

  lemma {:induction false} ApplyRepliesConsistent(
    d: Dealing, cfg: Config, shares: ShareTable, replies: seq<Option<Reply>>, n: nat)
    requires GoodCommittee(cfg) && Consistent(d, cfg, shares) && AnswersDealt(d, cfg, replies) && n <= |replies|
    ensures Consistent(d, cfg, ApplyReplies(shares, Present(replies[..n])))
  {
    if n > 0 {
      ApplyRepliesConsistent(d, cfg, shares, replies, n - 1);
      PresentSnoc(replies, n);
      var before := Present(replies[..n - 1]);
      if replies[n - 1].Some? {
        ApplySnoc(shares, before, replies[n - 1].value);
        ApplyReplyConsistent(d, cfg, ApplyReplies(shares, before), n - 1, replies[n - 1].value);
      } else {
        assert before + [] == before;
      }
    }
  }

  ghost predicate TwoDealt(d: Dealing, cfg: Config, id: string, r: seq<OpenShare>) {
    exists i, j :: 0 <= i < j < |cfg.nodes| && r == [Dealt(d, cfg, i, id), Dealt(d, cfg, j, id)]
  }

  /** Two gathered shares come from two different committee positions. */
  lemma {:induction false} GatherFromTwo(
    d: Dealing, cfg: Config, shares: ShareTable, n: nat, id: string, have: seq<OpenShare>)
    requires Consistent(d, cfg, shares) && n <= |cfg.nodes| && |have| < 2
    requires |have| == 1 ==> exists i :: 0 <= i < n && have[0] == Dealt(d, cfg, i, id)
    ensures var r := Gather(shares, cfg.nodes[n..], id, have);
            |r| >= 2 ==> TwoDealt(d, cfg, id, r)
    decreases |cfg.nodes| - n
  {
    if n < |cfg.nodes| {
      var rest := cfg.nodes[n..];
      assert rest[0] == cfg.nodes[n] && rest[1..] == cfg.nodes[n + 1..];
      var share := Decrypted(shares, cfg.nodes[n], id);
      if share.None? {
        GatherFromTwo(d, cfg, shares, n + 1, id, have);
      } else if have == [] {
        assert [] + [share.value] == [share.value] && share.value == Dealt(d, cfg, n, id);
        GatherFromTwo(d, cfg, shares, n + 1, id, [share.value]);
      } else {
        var i :| 0 <= i < n && have[0] == Dealt(d, cfg, i, id);
        assert have + [share.value] == [Dealt(d, cfg, i, id), Dealt(d, cfg, n, id)];
      }
    }
  }

  /** The intents with the amounts their submitters split, reduced into the field. */
  ghost function Plaintext(d: Dealing, intents: OrderedMap<string, MpcIntent>): seq<Netting.Intent> {
    seq(|intents|, k requires 0 <= k < |intents| =>
      Plain(intents[k].1, intents[k].0, d.amount(intents[k].0) % Shamir.FIELD_ORDER))
  }

  lemma {:induction false} AmountIsDealt(d: Dealing, cfg: Config, shares: ShareTable, id: string)
    requires GoodCommittee(cfg) && Consistent(d, cfg, shares) && Readable(Gather(shares, cfg.nodes, id, []))
    ensures Shamir.Reconstruct(SharesOf(Gather(shares, cfg.nodes, id, [])), Shamir.FIELD_ORDER)
         == d.amount(id) % Shamir.FIELD_ORDER
  {
    var i, j := GatheredPositions(d, cfg, shares, id);
    Shamir.AnyTwoSharesReconstruct(d.amount(id), d.coefficient(id), |cfg.nodes|, i, j, Shamir.FIELD_ORDER);
  }

  lemma {:induction false} GatheredPositions(d: Dealing, cfg: Config, shares: ShareTable, id: string)
    returns (i: nat, j: nat)
    requires Consistent(d, cfg, shares) && Readable(Gather(shares, cfg.nodes, id, []))
    ensures i < j < |cfg.nodes|
    ensures SharesOf(Gather(shares, cfg.nodes, id, [])) == [Dealt(d, cfg, i, id).share, Dealt(d, cfg, j, id).share]
  {
    assert cfg.nodes[0..] == cfg.nodes;
    var have := Gather(shares, cfg.nodes, id, []);
    GatherFromTwo(d, cfg, shares, 0, id, []);
    i, j :| i < j < |cfg.nodes| && have == [Dealt(d, cfg, i, id), Dealt(d, cfg, j, id)];
  }

  lemma {:induction false} ReconstructedIsPlaintext(
    d: Dealing, cfg: Config, shares: ShareTable, intents: OrderedMap<string, MpcIntent>)
    requires GoodCommittee(cfg) && Consistent(d, cfg, shares) && Enough(shares, cfg.nodes, intents)
    ensures Reconstructed(shares, cfg.nodes, intents) == Plaintext(d, intents)
  {
    forall k | 0 <= k < |intents|
      ensures Reconstructed(shares, cfg.nodes, intents)[k] == Plaintext(d, intents)[k]
    {
      AmountIsDealt(d, cfg, shares, intents[k].0);
    }
  }

  ghost function PlaintextMatches(d: Dealing, cfg: Config, s: Session): seq<Netting.MatchResult> {
    Netting.RenderAll(Netting.Matching(cfg.sort, Plaintext(d, s.intents)))
  }

  lemma {:induction false} NoPlaintextConsistent(d: Dealing, cfg: Config, shares: ShareTable)
    requires NoPlaintext(shares)
    ensures Consistent(d, cfg, shares)
  {
    forall i, id | 0 <= i < |cfg.nodes| ensures Decrypted(shares, cfg.nodes[i], id).None? {
    }
  }

  /** An in-process round that produces a batch nets exactly the plaintext amounts. */
  lemma {:induction false} LocalMatchesPlaintext(d: Dealing, cfg: Config, s: Session, batchId: string)
    requires GoodCommittee(cfg) && NoPlaintext(s.shares) && OpensDealt(d, cfg, s.shares)
    requires LocalRound(cfg, s, batchId).1.Produced?
    ensures LocalRound(cfg, s, batchId).1.batch.matches == PlaintextMatches(d, cfg, s)
  {
    NoPlaintextConsistent(d, cfg, s.shares);
    OpenTableConsistent(d, cfg, s.shares, cfg.nodes);
    ReconstructedIsPlaintext(d, cfg, OpenTable(cfg, s.shares, cfg.nodes).0, s.intents);
  }

  /** Whichever nodes answered, a remote round that gets past decryption nets exactly those amounts. */
  lemma {:induction false} RemoteMatchesPlaintext(d: Dealing, cfg: Config, s: Session, replies: seq<Option<Reply>>)
    requires GoodCommittee(cfg) && NoPlaintext(s.shares) && AnswersDealt(d, cfg, replies)
    requires RemoteDecrypted(cfg, s, replies).1.Continues?
    ensures RemoteDecrypted(cfg, s, replies).1.matches == PlaintextMatches(d, cfg, s)
  {
    NoPlaintextConsistent(d, cfg, s.shares);
    assert replies[..|replies|] == replies;
    ApplyRepliesConsistent(d, cfg, s.shares, replies, |replies|);
    ReconstructedIsPlaintext(d, cfg, ApplyReplies(s.shares, Present(replies)), s.intents);
  }

  lemma {:induction false} RemoteBatch(
    cfg: Config, s: Session, replies: seq<Option<Reply>>, b: string, sigs: seq<Option<Signature>>)
    requires RemoteRound(cfg, s, replies, b, sigs).1.Produced?
    ensures RemoteDecrypted(cfg, s.(status := Matching), replies).1
         == Continues(RemoteRound(cfg, s, replies, b, sigs).1.batch.matches)
  {
  }

  /** The remote round refines the in-process round: when both produce a batch for the same session,
      the matches are the same, whichever nodes were unreachable. */
  lemma {:induction false} RemoteRefinesLocal(
    d: Dealing, cfg: Config, s: Session, replies: seq<Option<Reply>>,
    b: string, b': string, sigs: seq<Option<Signature>>)
    requires GoodCommittee(cfg) && NoPlaintext(s.shares) && OpensDealt(d, cfg, s.shares)
    requires AnswersDealt(d, cfg, replies)
    requires LocalRound(cfg, s, b).1.Produced? && RemoteRound(cfg, s, replies, b', sigs).1.Produced?
    ensures RemoteRound(cfg, s, replies, b', sigs).1.batch.matches == LocalRound(cfg, s, b).1.batch.matches
  {
    var s1 := s.(status := Matching);
    LocalMatchesPlaintext(d, cfg, s, b);
    RemoteBatch(cfg, s, replies, b', sigs);
    RemoteMatchesPlaintext(d, cfg, s1, replies);
    assert PlaintextMatches(d, cfg, s1) == PlaintextMatches(d, cfg, s);
  }

  // ---------- what a round can read ----------

  function FirstTwo(xs: seq<OpenShare>): seq<OpenShare> {
    if |xs| <= 2 then xs else xs[..2]
  }

  lemma {:induction false} PresentPrefix<T>(xs: seq<Option<T>>, n: nat)
    requires n <= |xs|
    ensures |Present(xs[..n])| <= |Present(xs)| && Present(xs)[..|Present(xs[..n])|] == Present(xs[..n])
    decreases |xs| - n
  {
    if n < |xs| {
      PresentPrefix(xs, n + 1);
      assert xs[..n + 1][..n] == xs[..n];
    } else {
      assert xs[..n] == xs;
    }
  }

  /** The plaintext shares of an intent, in node order. */
  ghost function Plains(shares: ShareTable, nodes: seq<string>, id: string): seq<Option<OpenShare>> {
    seq(|nodes|, i requires 0 <= i < |nodes| => Decrypted(shares, nodes[i], id))
  }

  lemma {:induction false} GatherFrom(shares: ShareTable, nodes: seq<string>, id: string, n: nat)
    requires n <= |nodes| && |Present(Plains(shares, nodes, id)[..n])| < 2
    ensures Gather(shares, nodes[n..], id, Present(Plains(shares, nodes, id)[..n]))
         == FirstTwo(Present(Plains(shares, nodes, id)))
    decreases |nodes| - n
  {
    var xs := Plains(shares, nodes, id);
    if n == |nodes| {
      assert xs[..n] == xs;
    } else {
      GatherNext(shares, nodes, id, n);
      if |Present(xs[..n + 1])| < 2 {
        GatherFrom(shares, nodes, id, n + 1);
      } else {
        PresentPrefix(xs, n + 1);
      }
    }
  }

  /** Gathering looks at one node after the other and stops at the second share. */
  lemma {:induction false} GatherNext(shares: ShareTable, nodes: seq<string>, id: string, n: nat)
    requires n < |nodes| && |Present(Plains(shares, nodes, id)[..n])| < 2
    ensures var xs := Plains(shares, nodes, id);
            var have := Present(xs[..n + 1]);
            && |have| <= 2
            && Gather(shares, nodes[n..], id, Present(xs[..n]))
               == if |have| == 2 then have else Gather(shares, nodes[n + 1..], id, have)
  {
    var xs := Plains(shares, nodes, id);
    assert nodes[n..][0] == nodes[n] && nodes[n..][1..] == nodes[n + 1..];
    PresentSnoc(xs, n + 1);
    assert xs[n] == Decrypted(shares, nodes[n], id);
    var before := Present(xs[..n]);
    assert before + [] == before;
  }

  /** Reconstruction reads the first two plaintext shares of an intent. */
  lemma {:induction false} GatherIsFirstTwo(shares: ShareTable, nodes: seq<string>, id: string)
    ensures Gather(shares, nodes, id, []) == FirstTwo(Present(Plains(shares, nodes, id)))
  {
    assert nodes[0..] == nodes && Plains(shares, nodes, id)[..0] == [];
    GatherFrom(shares, nodes, id, 0);
  }

  /** The offers of every intent begin with two numeric shares. */
  ghost predicate AllReadable(offers: seq<seq<Option<OpenShare>>>) {
    forall k | 0 <= k < |offers| :: Readable(FirstTwo(Present(offers[k])))
  }

  /** The first offer that does not begin with two numeric shares has two shares all the same. */
  ghost predicate MalformedFirst(offers: seq<seq<Option<OpenShare>>>) {
    exists k :: MalformedAt(offers, k)
  }

  ghost predicate MalformedAt(offers: seq<seq<Option<OpenShare>>>, k: nat) {
    && k < |offers| && |Present(offers[k])| >= 2 && !Readable(FirstTwo(Present(offers[k])))
    && forall j | 0 <= j < k :: Readable(FirstTwo(Present(offers[j])))
  }

  lemma {:induction false} ReadingByOffers(
    shares: ShareTable, nodes: seq<string>, intents: OrderedMap<string, MpcIntent>, offers: seq<seq<Option<OpenShare>>>)
    requires |offers| == |intents| && forall k | 0 <= k < |intents| :: Plains(shares, nodes, intents[k].0) == offers[k]
    ensures Enough(shares, nodes, intents) <==> AllReadable(offers)
    ensures Throws(shares, nodes, intents) <==> MalformedFirst(offers)
  {
    forall k | 0 <= k < |intents| ensures Gather(shares, nodes, intents[k].0, []) == FirstTwo(Present(offers[k])) {
      GatherIsFirstTwo(shares, nodes, intents[k].0);
    }
    if k: nat :| MalformedAt(offers, k) { assert ThrowsAt(shares, nodes, intents, k); }
    if Throws(shares, nodes, intents) {
      var k :| 0 <= k < |intents| && ThrowsAt(shares, nodes, intents, k);
      assert MalformedAt(offers, k);
    }
  }

  // ---------- the remote round ----------

  /** Node i answers under its own id, once per intent. */
  ghost predicate OwnAnswers(cfg: Config, replies: seq<Option<Reply>>) {
    && |replies| == |cfg.nodes|
    && forall i | 0 <= i < |replies| && replies[i].Some? ::
         replies[i].value.nodeId == cfg.nodes[i] && Unique(replies[i].value.shares)
  }

  /** What node i's answer offers for an intent it has a slot for. */
  ghost function AnswerFor(cfg: Config, shares: ShareTable, replies: seq<Option<Reply>>, i: nat, id: string)
    : Option<OpenShare>
    requires i < |replies| == |cfg.nodes|
  {
    if replies[i].Some? && Has(SlotsOf(shares, cfg.nodes[i]), id) && Has(replies[i].value.shares, id)
    then Get(replies[i].value.shares, id) else None
  }

  ghost function Answers(cfg: Config, s: Session, replies: seq<Option<Reply>>): seq<seq<Option<OpenShare>>>
    requires |replies| == |cfg.nodes|
  {
    seq(|s.intents|, k requires 0 <= k < |s.intents| =>
      seq(|cfg.nodes|, i requires 0 <= i < |cfg.nodes| => AnswerFor(cfg, s.shares, replies, i, s.intents[k].0)))
  }

  lemma {:induction false} ApplyReplyAt(shares: ShareTable, r: Reply, node: string, id: string)
    ensures Has(SlotsOf(ApplyReply(shares, r), node), id) == Has(SlotsOf(shares, node), id)
    ensures r.nodeId != node ==> SlotsOf(ApplyReply(shares, r), node) == SlotsOf(shares, node)
    ensures r.nodeId == node && Unique(r.shares) && Has(SlotsOf(shares, node), id) && Has(r.shares, id) ==>
              Decrypted(ApplyReply(shares, r), node, id) == Get(r.shares, id)
    ensures !Has(r.shares, id) ==> Decrypted(ApplyReply(shares, r), node, id) == Decrypted(shares, node, id)
  {
    if Has(shares, r.nodeId) {
      var slots := Get(shares, r.nodeId);
      SlotsOfPut(shares, r.nodeId, ApplyShares(slots, r.shares), node);
      ApplySharesAt(slots, r.shares, id);
      if !Has(r.shares, id) { ApplySharesElsewhere(slots, r.shares, id); }
    }
  }

  lemma {:induction false} ApplySharesElsewhere(
    slots: NodeShares, shares: OrderedMap<string, Option<OpenShare>>, id: string)
    requires !Has(shares, id)
    ensures PlainIn(ApplyShares(slots, shares), id) == PlainIn(slots, id)
  {
    if shares != [] {
      var n := |shares| - 1;
      assert shares[n].0 != id && !Has(shares[..n], id);
      ApplySharesElsewhere(slots, shares[..n], id);
      var done := ApplyShares(slots, shares[..n]);
      if Has(done, shares[n].0) {
        PlainInPut(done, shares[n].0, Get(done, shares[n].0).(decrypted := shares[n].1), id);
      }
    }
  }

  /** One more answer changes only the slots of the node that gives it. */
  lemma {:induction false} OneMoreAnswer(
    cfg: Config, shares: ShareTable, replies: seq<Option<Reply>>, n: nat, i: nat, id: string, t: ShareTable)
    requires DistinctNodes(cfg.nodes) && OwnAnswers(cfg, replies) && i < |replies| && n < |replies|
    requires replies[n].Some? && Has(SlotsOf(t, cfg.nodes[i]), id) == Has(SlotsOf(shares, cfg.nodes[i]), id)
    requires i == n ==> Decrypted(t, cfg.nodes[i], id).None?
    ensures Decrypted(ApplyReply(t, replies[n].value), cfg.nodes[i], id)
         == if i == n then AnswerFor(cfg, shares, replies, i, id) else Decrypted(t, cfg.nodes[i], id)
  {
    var u := ApplyReply(t, replies[n].value);
    ApplyReplyAt(t, replies[n].value, cfg.nodes[i], id);
    if i == n && !Has(SlotsOf(t, cfg.nodes[i]), id) { NoSlotNoPlain(u, cfg.nodes[i], id); }
    if i != n { assert cfg.nodes[i] != cfg.nodes[n]; }
  }

  /** The table after the answers of the first n nodes, those that did not answer left out. */
  ghost function After(shares: ShareTable, replies: seq<Option<Reply>>, n: nat): ShareTable
    requires n <= |replies|
  {
    if n == 0 then shares
    else if replies[n - 1].None? then After(shares, replies, n - 1)
    else ApplyReply(After(shares, replies, n - 1), replies[n - 1].value)
  }

  lemma {:induction false} AfterIsApplied(shares: ShareTable, replies: seq<Option<Reply>>, n: nat)
    requires n <= |replies|
    ensures After(shares, replies, n) == ApplyReplies(shares, Present(replies[..n]))
  {
    if n > 0 {
      AfterIsApplied(shares, replies, n - 1);
      PresentSnoc(replies, n);
      var before := Present(replies[..n - 1]);
      assert before + [] == before;
      if replies[n - 1].Some? { ApplySnoc(shares, before, replies[n - 1].value); }
    }
  }

  lemma {:induction false} AfterKeepsSlots(
    shares: ShareTable, replies: seq<Option<Reply>>, n: nat, node: string, id: string)
    requires n <= |replies|
    ensures Has(SlotsOf(After(shares, replies, n), node), id) == Has(SlotsOf(shares, node), id)
  {
    if n > 0 {
      AfterKeepsSlots(shares, replies, n - 1, node, id);
      if replies[n - 1].Some? { ApplyReplyAt(After(shares, replies, n - 1), replies[n - 1].value, node, id); }
    }
  }

  /** The answer of node n, or its absence, changes only the slots of that node. */
  lemma {:induction false} AfterOneMore(
    cfg: Config, shares: ShareTable, replies: seq<Option<Reply>>, n: nat, i: nat, id: string)
    requires DistinctNodes(cfg.nodes) && OwnAnswers(cfg, replies) && i < |replies| && n < |replies|
    requires i == n ==> Decrypted(After(shares, replies, n), cfg.nodes[i], id).None?
    ensures Decrypted(After(shares, replies, n + 1), cfg.nodes[i], id)
         == if i == n then AnswerFor(cfg, shares, replies, i, id)
            else Decrypted(After(shares, replies, n), cfg.nodes[i], id)
  {
    if replies[n].Some? {
      AfterKeepsSlots(shares, replies, n, cfg.nodes[i], id);
      OneMoreAnswer(cfg, shares, replies, n, i, id, After(shares, replies, n));
    }
  }

  /** After the first n answers, a node's slot holds what it answered, or nothing. */
  ghost predicate HoldsAnswer(
    cfg: Config, shares: ShareTable, replies: seq<Option<Reply>>, n: nat, i: nat, id: string)
    requires i < |replies| == |cfg.nodes| && n <= |replies|
  {
    Decrypted(After(shares, replies, n), cfg.nodes[i], id)
      == if i < n then AnswerFor(cfg, shares, replies, i, id) else None
  }

  lemma {:induction false} HoldsNext(
    cfg: Config, shares: ShareTable, replies: seq<Option<Reply>>, n: nat, i: nat, id: string)
    requires DistinctNodes(cfg.nodes) && OwnAnswers(cfg, replies) && i < |replies| && n < |replies|
    requires HoldsAnswer(cfg, shares, replies, n, i, id)
    ensures HoldsAnswer(cfg, shares, replies, n + 1, i, id)
  {
    AfterOneMore(cfg, shares, replies, n, i, id);
  }

  lemma {:induction false} AnswersStored(
    cfg: Config, shares: ShareTable, replies: seq<Option<Reply>>, n: nat, i: nat, id: string)
    requires DistinctNodes(cfg.nodes) && OwnAnswers(cfg, replies) && i < |replies| && n <= |replies|
    requires Decrypted(shares, cfg.nodes[i], id).None?
    ensures HoldsAnswer(cfg, shares, replies, n, i, id)
  {
    if n > 0 {
      AnswersStored(cfg, shares, replies, n - 1, i, id);
      HoldsNext(cfg, shares, replies, n - 1, i, id);
    }
  }

  lemma {:induction false} NoSlotNoPlain(shares: ShareTable, node: string, id: string)
    requires !Has(SlotsOf(shares, node), id)
    ensures Decrypted(shares, node, id).None?
  {
  }

  lemma {:induction false} AnswersAreRead(cfg: Config, s: Session, replies: seq<Option<Reply>>)
    requires DistinctNodes(cfg.nodes) && OwnAnswers(cfg, replies) && NoPlaintext(s.shares)
    ensures var t := ApplyReplies(s.shares, Present(replies));
            && (Enough(t, cfg.nodes, s.intents) <==> AllReadable(Answers(cfg, s, replies)))
            && (Throws(t, cfg.nodes, s.intents) <==> MalformedFirst(Answers(cfg, s, replies)))
  {
    var t := ApplyReplies(s.shares, Present(replies));
    assert replies[..|replies|] == replies;
    AfterIsApplied(s.shares, replies, |replies|);
    forall k | 0 <= k < |s.intents| ensures Plains(t, cfg.nodes, s.intents[k].0) == Answers(cfg, s, replies)[k] {
      forall i | 0 <= i < |cfg.nodes|
        ensures Plains(t, cfg.nodes, s.intents[k].0)[i] == Answers(cfg, s, replies)[k][i]
      {
        assert Decrypted(s.shares, cfg.nodes[i], s.intents[k].0).None?;
        AnswersStored(cfg, s.shares, replies, |replies|, i, s.intents[k].0);
      }
    }
    ReadingByOffers(t, cfg.nodes, s.intents, Answers(cfg, s, replies));
  }

  /** How a remote round over a clean session ends: signed when enough nodes answer both requests and
      every intent's first two answers are numbers, thrown when the first that are not are two. */
  lemma {:induction false} RemoteEnds(
    cfg: Config, s: Session, replies: seq<Option<Reply>>, batchId: string, sigs: seq<Option<Signature>>)
    requires DistinctNodes(cfg.nodes) && OwnAnswers(cfg, replies) && NoPlaintext(s.shares) && |s.intents| >= 2
    ensures RemoteRound(cfg, s, replies, batchId, sigs).0.status == Signed <==>
              && |Present(replies)| >= Threshold(|cfg.nodes|) && |Present(sigs)| >= Threshold(|cfg.nodes|)
              && AllReadable(Answers(cfg, s, replies))
    ensures RemoteRound(cfg, s, replies, batchId, sigs).0.status == Matching <==>
              |Present(replies)| >= Threshold(|cfg.nodes|) && MalformedFirst(Answers(cfg, s, replies))
  {
    var s1 := s.(status := Matching);
    AnswersAreRead(cfg, s1, replies);
    assert Answers(cfg, s1, replies) == Answers(cfg, s, replies);
  }

  // ---------- fault tolerance ----------

  ghost function Lost<T>(xs: seq<Option<T>>): nat {
    |xs| - |Present(xs)|
  }

  /** The threshold leaves room for exactly a third of the nodes, rounded down. */
  lemma {:induction false} ThresholdIsAllButAThird(n: nat)
    ensures Threshold(n) == n - n / 3
  {
  }

  lemma {:induction false} UnionCount(u: set<string>, a: set<string>, b: set<string>)
    requires a <= u && b <= u
    ensures |a * b| >= |a| + |b| - |u|
  {
    assert a == (a - b) + a * b;
    assert |a| == |a - b| + |a * b|;
    assert (a - b) !! b && (a - b) + b <= u;
    assert u == ((a - b) + b) + (u - ((a - b) + b));
  }

  /** Any two sets of signers large enough to sign share at least a third of the nodes, rounded up. */
  lemma {:induction false} SignersOverlap(committee: set<string>, a: set<string>, b: set<string>)
    requires a <= committee && b <= committee
    requires |a| >= Threshold(|committee|) && |b| >= Threshold(|committee|)
    ensures |a * b| >= (|committee| + 2) / 3
  {
    UnionCount(committee, a, b);
  }

  /** Every answering node has a slot for each intent and answers with a numeric share. */
  ghost predicate Delivered(cfg: Config, s: Session, replies: seq<Option<Reply>>)
    requires |replies| == |cfg.nodes|
  {
    forall i, k | 0 <= i < |replies| && replies[i].Some? && 0 <= k < |s.intents| ::
      AnswerFor(cfg, s.shares, replies, i, s.intents[k].0).Some?
      && AnswerFor(cfg, s.shares, replies, i, s.intents[k].0).value.Numbers?
  }

  /** As many shares are offered for an intent as nodes answer, and all are numbers. */
  lemma {:induction false} AllAnswer(xs: seq<Option<OpenShare>>, replies: seq<Option<Reply>>)
    requires |xs| == |replies| && forall i | 0 <= i < |xs| :: xs[i].Some? == replies[i].Some?
    requires forall i | 0 <= i < |xs| && xs[i].Some? :: xs[i].value.Numbers?
    ensures |Present(xs)| == |Present(replies)| && forall j | 0 <= j < |Present(xs)| :: Present(xs)[j].Numbers?
  {
    if xs != [] {
      AllAnswer(xs[..|xs| - 1], replies[..|xs| - 1]);
    }
  }

  lemma {:induction false} DeliveredIsReadable(cfg: Config, s: Session, replies: seq<Option<Reply>>)
    requires |replies| == |cfg.nodes| && Delivered(cfg, s, replies) && |Present(replies)| >= 2
    ensures AllReadable(Answers(cfg, s, replies))
  {
    forall k | 0 <= k < |s.intents| ensures Readable(FirstTwo(Present(Answers(cfg, s, replies)[k]))) {
      var xs := Answers(cfg, s, replies)[k];
      forall i | 0 <= i < |xs| ensures xs[i].Some? == replies[i].Some? {
        assert xs[i] == AnswerFor(cfg, s.shares, replies, i, s.intents[k].0);
      }
      AllAnswer(xs, replies);
    }
  }

  /** With every share delivered, a round over n >= 2 nodes is signed exactly when at most n / 3 nodes
      are lost while decrypting and at most n / 3 while signing. */
  lemma {:induction false} SignedIffAThirdLost(
    cfg: Config, s: Session, replies: seq<Option<Reply>>, batchId: string, sigs: seq<Option<Signature>>)
    requires DistinctNodes(cfg.nodes) && OwnAnswers(cfg, replies) && Delivered(cfg, s, replies) && NoPlaintext(s.shares)
    requires |cfg.nodes| >= 2 && |s.intents| >= 2 && |sigs| == |cfg.nodes|
    ensures RemoteRound(cfg, s, replies, batchId, sigs).0.status == Signed <==>
              Lost(replies) <= |cfg.nodes| / 3 && Lost(sigs) <= |cfg.nodes| / 3
  {
    RemoteEnds(cfg, s, replies, batchId, sigs);
    ThresholdIsAllButAThird(|cfg.nodes|);
    if |Present(replies)| >= 2 { DeliveredIsReadable(cfg, s, replies); }
  }

  /** One node alone can never finish a round: two shares are needed per intent. */
  lemma {:induction false} SingleNodeNeverSigns(
    cfg: Config, s: Session, replies: seq<Option<Reply>>, batchId: string, sigs: seq<Option<Signature>>)
    requires |cfg.nodes| == 1 && |s.intents| >= 2
    ensures RemoteRound(cfg, s, replies, batchId, sigs).0.status == Failed
  {
    var t := ApplyReplies(s.shares, Present(replies));
    assert cfg.nodes[1..] == [];
    assert forall k | 0 <= k < |s.intents| :: |Gather(t, cfg.nodes, s.intents[k].0, [])| < 2;
    assert !Readable(Gather(t, cfg.nodes, s.intents[0].0, []));
  }

  // ---------- the in-process round tolerates no loss ----------

  /** Every share stored for one of the nodes can be unsealed. */
  ghost predicate AllOpen(cfg: Config, shares: ShareTable, nodes: seq<string>) {
    forall i | 0 <= i < |nodes| :: NodeOpens(cfg, nodes[i], SlotsOf(shares, nodes[i]))
  }

  ghost predicate NodeOpens(cfg: Config, node: string, slots: NodeShares) {
    forall k | 0 <= k < |slots| :: Opens(cfg, node, slots[k].1)
  }

  /** What a node's stored share of an intent opens to. */
  ghost function StoredFor(cfg: Config, node: string, slots: NodeShares, id: string): Option<OpenShare> {
    if Has(slots, id) then InSlot(cfg.decrypt(node, Get(slots, id).sealed)) else None
  }

  ghost function Stored(cfg: Config, s: Session): seq<seq<Option<OpenShare>>> {
    seq(|s.intents|, k requires 0 <= k < |s.intents| =>
      seq(|cfg.nodes|, i requires 0 <= i < |cfg.nodes| =>
        StoredFor(cfg, cfg.nodes[i], SlotsOf(s.shares, cfg.nodes[i]), s.intents[k].0)))
  }

  lemma {:induction false} OpenedAt(cfg: Config, node: string, slots: NodeShares, id: string)
    ensures PlainIn(OpenFirst(cfg, node, slots, |slots|), id) == StoredFor(cfg, node, slots, id)
  {
    SameKeysSameIndex(slots, OpenFirst(cfg, node, slots, |slots|), id);
  }

  lemma {:induction false} OpenTableElsewhere(cfg: Config, shares: ShareTable, nodes: seq<string>, node: string)
    requires node !in nodes
    ensures SlotsOf(OpenTable(cfg, shares, nodes).0, node) == SlotsOf(shares, node)
    decreases |nodes|
  {
    if nodes != [] {
      if Has(shares, nodes[0]) {
        var slots := Get(shares, nodes[0]);
        var unsealed := OpenFirst(cfg, nodes[0], slots, FirstFailure(cfg, nodes[0], slots));
        SlotsOfPut(shares, nodes[0], unsealed, node);
        OpenTableElsewhere(cfg, Put(shares, nodes[0], unsealed), nodes[1..], node);
      } else {
        OpenTableElsewhere(cfg, shares, nodes[1..], node);
      }
    }
  }

  lemma {:induction false} OpenRest(cfg: Config, shares: ShareTable, nodes: seq<string>, slots: NodeShares)
    requires nodes != [] && DistinctNodes(nodes)
    ensures forall i | 0 <= i < |nodes| - 1 ::
              SlotsOf(Put(shares, nodes[0], slots), nodes[1..][i]) == SlotsOf(shares, nodes[i + 1])
    ensures SlotsOf(OpenTable(cfg, Put(shares, nodes[0], slots), nodes[1..]).0, nodes[0]) == slots
  {
    forall i | 0 <= i < |nodes| - 1
      ensures SlotsOf(Put(shares, nodes[0], slots), nodes[1..][i]) == SlotsOf(shares, nodes[i + 1])
    {
      SlotsOfPut(shares, nodes[0], slots, nodes[i + 1]);
    }
    SlotsOfPut(shares, nodes[0], slots, nodes[0]);
    OpenTableElsewhere(cfg, Put(shares, nodes[0], slots), nodes[1..], nodes[0]);
  }

  lemma {:induction false} OpenTableIff(cfg: Config, shares: ShareTable, nodes: seq<string>)
    requires DistinctNodes(nodes)
    ensures OpenTable(cfg, shares, nodes).1 <==> AllOpen(cfg, shares, nodes)
    decreases |nodes|
  {
    if nodes != [] {
      var slots := SlotsOf(shares, nodes[0]);
      if !Has(shares, nodes[0]) {
        OpenTableIff(cfg, shares, nodes[1..]);
        assert forall i | 1 <= i < |nodes| :: nodes[i] == nodes[1..][i - 1];
        assert NodeOpens(cfg, nodes[0], slots);
      } else {
        var unsealed := OpenFirst(cfg, nodes[0], slots, FirstFailure(cfg, nodes[0], slots));
        OpenRest(cfg, shares, nodes, unsealed);
        OpenTableIff(cfg, Put(shares, nodes[0], unsealed), nodes[1..]);
        assert forall i | 1 <= i < |nodes| ::
            SlotsOf(shares, nodes[i]) == SlotsOf(Put(shares, nodes[0], unsealed), nodes[1..][i - 1]);
        assert NodeOpens(cfg, nodes[0], slots) <==> FirstFailure(cfg, nodes[0], slots) == |slots|;
      }
    }
  }

  /** When every share opens, a node's slots are all opened and the other nodes are left to the rest. */
  lemma {:induction false} OpenTableStep(cfg: Config, shares: ShareTable, nodes: seq<string>, t: ShareTable)
    requires nodes != [] && DistinctNodes(nodes) && AllOpen(cfg, shares, nodes)
    requires var slots := SlotsOf(shares, nodes[0]);
             t == if Has(shares, nodes[0]) then Put(shares, nodes[0], OpenFirst(cfg, nodes[0], slots, |slots|))
                  else shares
    ensures OpenTable(cfg, shares, nodes) == OpenTable(cfg, t, nodes[1..])
    ensures forall i | 1 <= i < |nodes| :: SlotsOf(t, nodes[1..][i - 1]) == SlotsOf(shares, nodes[i])
    ensures AllOpen(cfg, t, nodes[1..])
    ensures var slots := SlotsOf(shares, nodes[0]);
            SlotsOf(OpenTable(cfg, t, nodes[1..]).0, nodes[0]) == OpenFirst(cfg, nodes[0], slots, |slots|)
  {
    var slots := SlotsOf(shares, nodes[0]);
    assert NodeOpens(cfg, nodes[0], slots);
    if Has(shares, nodes[0]) {
      assert FirstFailure(cfg, nodes[0], slots) == |slots|;
      OpenRest(cfg, shares, nodes, OpenFirst(cfg, nodes[0], slots, |slots|));
    } else {
      OpenTableElsewhere(cfg, shares, nodes[1..], nodes[0]);
    }
    assert forall i | 1 <= i < |nodes| :: SlotsOf(t, nodes[1..][i - 1]) == SlotsOf(shares, nodes[i]);
    forall i | 0 <= i < |nodes| - 1 ensures NodeOpens(cfg, nodes[1..][i], SlotsOf(t, nodes[1..][i])) {
      assert SlotsOf(t, nodes[1..][i + 1 - 1]) == SlotsOf(shares, nodes[i + 1]);
    }
  }

  lemma {:induction false} OpenTableFills(cfg: Config, shares: ShareTable, nodes: seq<string>, i: nat, id: string)
    requires DistinctNodes(nodes) && AllOpen(cfg, shares, nodes) && i < |nodes|
    ensures Decrypted(OpenTable(cfg, shares, nodes).0, nodes[i], id)
         == StoredFor(cfg, nodes[i], SlotsOf(shares, nodes[i]), id)
    decreases |nodes|
  {
    var slots := SlotsOf(shares, nodes[0]);
    var t := if Has(shares, nodes[0]) then Put(shares, nodes[0], OpenFirst(cfg, nodes[0], slots, |slots|)) else shares;
    OpenTableStep(cfg, shares, nodes, t);
    if i == 0 {
      OpenedAt(cfg, nodes[0], slots, id);
    } else {
      assert nodes[1..][i - 1] == nodes[i];
      OpenTableFills(cfg, t, nodes[1..], i - 1, id);
    }
  }

  lemma {:induction false} StoredIsRead(cfg: Config, s: Session)
    requires DistinctNodes(cfg.nodes) && AllOpen(cfg, s.shares, cfg.nodes)
    ensures var t := OpenTable(cfg, s.shares, cfg.nodes).0;
            && (Enough(t, cfg.nodes, s.intents) <==> AllReadable(Stored(cfg, s)))
            && (Throws(t, cfg.nodes, s.intents) <==> MalformedFirst(Stored(cfg, s)))
  {
    var t := OpenTable(cfg, s.shares, cfg.nodes).0;
    forall k | 0 <= k < |s.intents| ensures Plains(t, cfg.nodes, s.intents[k].0) == Stored(cfg, s)[k] {
      forall i | 0 <= i < |cfg.nodes| ensures Plains(t, cfg.nodes, s.intents[k].0)[i] == Stored(cfg, s)[k][i] {
        OpenTableFills(cfg, s.shares, cfg.nodes, i, s.intents[k].0);
      }
    }
    ReadingByOffers(t, cfg.nodes, s.intents, Stored(cfg, s));
  }

  /** How an in-process round ends: signed exactly when every stored share opens, so that unlike the
      remote round it tolerates no loss, and every intent's first two shares are numbers; thrown, with
      the session left in matching, when the first that are not are two. */
  lemma {:induction false} LocalEnds(cfg: Config, s: Session, batchId: string)
    requires DistinctNodes(cfg.nodes) && |s.intents| >= 2
    ensures LocalRound(cfg, s, batchId).0.status == Signed <==>
              AllOpen(cfg, s.shares, cfg.nodes) && AllReadable(Stored(cfg, s))
    ensures LocalRound(cfg, s, batchId).0.status == Matching <==>
              AllOpen(cfg, s.shares, cfg.nodes) && MalformedFirst(Stored(cfg, s))
  {
    OpenTableIff(cfg, s.shares, cfg.nodes);
    if AllOpen(cfg, s.shares, cfg.nodes) { StoredIsRead(cfg, s); }
  }

  // ---------- what a thrown round leaves behind ----------

  lemma {:induction false} GatheredIsStored(shares: ShareTable, nodes: seq<string>, id: string, have: seq<OpenShare>)
    requires |Gather(shares, nodes, id, have)| > |have|
    ensures exists node :: Decrypted(shares, node, id).Some?
    decreases |nodes|
  {
    if Decrypted(shares, nodes[0], id).None? {
      GatheredIsStored(shares, nodes[1..], id, have);
    }
  }

  /** A round that throws leaves plaintext shares in the session. */
  lemma {:induction false} ThrownKeepsPlaintext(
    shares: ShareTable, nodes: seq<string>, intents: OrderedMap<string, MpcIntent>)
    requires Throws(shares, nodes, intents)
    ensures !NoPlaintext(shares)
  {
    var k :| 0 <= k < |intents| && ThrowsAt(shares, nodes, intents, k);
    GatheredIsStored(shares, nodes, intents[k].0, []);
  }
}
