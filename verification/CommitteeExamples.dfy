/** A committee of two nodes and three intents that show what the committee's findings need: two that
    are matched, and one whose shares do not open to numbers. */
module CommitteeExamples {
  import opened JsMap
  import opened Sessions
  import opened Rounds
  import opened RoundProofs
  import opened Committee
  import opened CommitteeProofs
  import opened CommitteeHygiene
  import opened CommitteeSafety
  import opened Pairings
  import opened NettingProofs
  import Netting
  import Shamir

  // ---------- a sort ----------

  function Insert(sorted: seq<Netting.Intent>, i: Netting.Intent): seq<Netting.Intent> {
    if sorted == [] || i.amount <= sorted[0].amount then [i] + sorted else [sorted[0]] + Insert(sorted[1..], i)
  }

  function ByAmount(s: seq<Netting.Intent>): seq<Netting.Intent> {
    if s == [] then [] else Insert(ByAmount(s[1..]), s[0])
  }

  lemma {:induction false} InsertPermutes(sorted: seq<Netting.Intent>, i: Netting.Intent)
    ensures multiset(Insert(sorted, i)) == multiset(sorted) + multiset{i}
  {
    if sorted != [] && i.amount > sorted[0].amount {
      InsertPermutes(sorted[1..], i);
      assert sorted == [sorted[0]] + sorted[1..];
    }
  }

  /** Nothing in the result is below a bound of what goes in. */
  lemma {:induction false} InsertBound(sorted: seq<Netting.Intent>, i: Netting.Intent, low: int)
    requires low <= i.amount && forall k | 0 <= k < |sorted| :: low <= sorted[k].amount
    ensures forall k | 0 <= k < |Insert(sorted, i)| :: low <= Insert(sorted, i)[k].amount
  {
    if sorted != [] && i.amount > sorted[0].amount {
      InsertBound(sorted[1..], i, low);
    }
  }

  lemma {:induction false} InsertAscends(sorted: seq<Netting.Intent>, i: Netting.Intent)
    requires Netting.Ascending(sorted)
    ensures Netting.Ascending(Insert(sorted, i))
  {
    if sorted != [] && i.amount > sorted[0].amount {
      InsertAscends(sorted[1..], i);
      InsertBound(sorted[1..], i, sorted[0].amount);
    }
  }

  /** There is a sort as the matcher needs it. */
  lemma {:induction false} ByAmountSorts()
    ensures Netting.SortsByAmount(ByAmount)
  {
    forall s ensures multiset(ByAmount(s)) == multiset(s) && Netting.Ascending(ByAmount(s)) {
      SortsOne(s);
    }
  }

  lemma {:induction false} SortsOne(s: seq<Netting.Intent>)
    ensures multiset(ByAmount(s)) == multiset(s) && Netting.Ascending(ByAmount(s))
  {
    if s != [] {
      SortsOne(s[1..]);
      InsertPermutes(ByAmount(s[1..]), s[0]);
      InsertAscends(ByAmount(s[1..]), s[0]);
      assert s == [s[0]] + s[1..];
    }
  }

  // ---------- a committee and its clients ----------

  /** A point of the constant line 5, or text that is no numbers. */
  function OpensTo(node: string, text: string): OpenShare {
    if text == "bad" then Malformed("z") else Numbers(Shamir.Share(if node == "a" then 1 else 2, 5))
  }

  function Unseal(node: string, sealed: SealedShare): Opening {
    Yields(OpensTo(node, sealed.ciphertext))
  }

  const PAIR := Config(["a", "b"], Unseal, (node, batchId, matches) => Signature(node, ""), ByAmount)

  function Client(id: string, input: string, output: string, text: string): MpcIntent {
    MpcIntent(id, input, output, [SealedShare("a", text, "", ""), SealedShare("b", text, "", "")])
  }

  lemma {:induction false} StoreTwo(shares: ShareTable, id: string, p: SealedShare, q: SealedShare)
    ensures StoreShares(shares, id, [p, q]) == StoreShare(StoreShare(shares, id, p), id, q)
  {
    assert [p, q][..1] == [p] && [p][..0] == [];
    assert StoreShares(shares, id, [p]) == StoreShare(shares, id, p);
  }

  lemma {:induction false} SlotOf(shares: ShareTable, id: string, p: SealedShare, node: string, other: string)
    ensures Find(SlotsOf(StoreShare(shares, id, p), node), other)
         == if node == p.nodeId && other == id then Some(ShareEntry(p, None)) else Find(SlotsOf(shares, node), other)
  {
    var slots := SlotsOf(shares, p.nodeId);
    SlotsOfPut(shares, p.nodeId, Put(slots, id, ShareEntry(p, None)), node);
    PutFind(slots, id, ShareEntry(p, None), other);
  }

  /** Both nodes hold a client's sealed share after the client is accepted, and keep those of others. */
  lemma {:induction false} ClientSlots(
    s: Session, id: string, input: string, output: string, text: string, node: string, other: string)
    requires node in {"a", "b"}
    ensures Find(SlotsOf(Accept(s, Client(id, input, output, text)).shares, node), other)
         == if other == id then Some(ShareEntry(SealedShare(node, text, "", ""), None))
            else Find(SlotsOf(s.shares, node), other)
  {
    var p, q := SealedShare("a", text, "", ""), SealedShare("b", text, "", "");
    StoreTwo(s.shares, id, p, q);
    SlotOf(s.shares, id, p, node, other);
    SlotOf(StoreShare(s.shares, id, p), id, q, node, other);
  }

  ghost function Two(now: string, text: string): Session {
    PairSession(Client("x", "A", "B", "good"), Client("y", "B", "A", text), now)
  }

  lemma {:induction false} TwoIntents(now: string, text: string)
    ensures Two(now, text).intents == [("x", Client("x", "A", "B", "good")), ("y", Client("y", "B", "A", text))]
    ensures Two(now, text).status == Open
  {
  }

  lemma {:induction false} TwoStored(now: string, text: string, node: string)
    requires node in {"a", "b"}
    ensures var slots := SlotsOf(Two(now, text).shares, node);
            && StoredFor(PAIR, node, slots, "x") == Some(OpensTo(node, "good"))
            && StoredFor(PAIR, node, slots, "y") == Some(OpensTo(node, text))
  {
    var s := Accept(NewSession(now), Client("x", "A", "B", "good"));
    ClientSlots(NewSession(now), "x", "A", "B", "good", node, "x");
    ClientSlots(s, "y", "B", "A", text, node, "x");
    ClientSlots(s, "y", "B", "A", text, node, "y");
  }

  lemma {:induction false} TwoOffers(now: string, text: string)
    ensures text == "bad" ==> MalformedFirst(Stored(PAIR, Two(now, text)))
    ensures text != "bad" ==> AllReadable(Stored(PAIR, Two(now, text)))
  {
    TwoIntents(now, text);
    TwoStored(now, text, "a");
    TwoStored(now, text, "b");
    TwoRows(PAIR, Two(now, text), OpensTo("a", "good"), OpensTo("b", "good"), OpensTo("a", text), OpensTo("b", text));
  }

  lemma {:induction false} TwoRows(cfg: Config, s: Session, p: OpenShare, q: OpenShare, u: OpenShare, v: OpenShare)
    requires cfg.nodes == ["a", "b"] && |s.intents| == 2 && s.intents[0].0 == "x" && s.intents[1].0 == "y"
    requires StoredFor(cfg, "a", SlotsOf(s.shares, "a"), "x") == Some(p) && p.Numbers?
    requires StoredFor(cfg, "b", SlotsOf(s.shares, "b"), "x") == Some(q) && q.Numbers?
    requires StoredFor(cfg, "a", SlotsOf(s.shares, "a"), "y") == Some(u)
    requires StoredFor(cfg, "b", SlotsOf(s.shares, "b"), "y") == Some(v)
    ensures u.Numbers? && v.Numbers? ==> AllReadable(Stored(cfg, s))
    ensures u.Malformed? || v.Malformed? ==> MalformedFirst(Stored(cfg, s))
  {
    var offers := Stored(cfg, s);
    assert offers[0] == [Some(p), Some(q)] && offers[1] == [Some(u), Some(v)];
    PresentTwo(offers[0]);
    PresentTwo(offers[1]);
    assert Present(offers[1])[0] == u && Present(offers[1])[1] == v;
    OffersDecide(offers);
  }

  lemma {:induction false} OffersDecide(offers: seq<seq<Option<OpenShare>>>)
    requires |offers| == 2 && |Present(offers[0])| == |Present(offers[1])| == 2 && Readable(Present(offers[0]))
    ensures Readable(Present(offers[1])) ==> AllReadable(offers)
    ensures !Readable(Present(offers[1])) ==> MalformedFirst(offers)
  {
    if !Readable(Present(offers[1])) { assert MalformedAt(offers, 1); }
  }

  lemma {:induction false} PresentTwo(xs: seq<Option<OpenShare>>)
    requires |xs| == 2 && xs[0].Some? && xs[1].Some?
    ensures Present(xs) == [xs[0].value, xs[1].value]
  {
    PresentSnoc(xs, 2);
    PresentSnoc(xs, 1);
    assert xs[..2] == xs && xs[..0] == [];
  }

  lemma {:induction false} TwoOpen(now: string, text: string)
    ensures AllOpen(PAIR, Two(now, text).shares, PAIR.nodes) && DistinctNodes(PAIR.nodes)
  {
    NeverRefuses(PAIR, Two(now, text).shares);
  }

  lemma {:induction false} NeverRefuses(cfg: Config, shares: ShareTable)
    requires cfg.decrypt == Unseal
    ensures AllOpen(cfg, shares, cfg.nodes)
  {
  }

  // ---------- two intents that are matched ----------

  lemma {:induction false} Complements(i: Netting.Intent, j: Netting.Intent)
    requires i.id == "x" && j.id == "y" && i.input == j.output == "A" && i.output == j.input == "B"
    ensures Netting.Matching(ByAmount, [i, j]) != []
  {
    ByAmountSorts();
    var f := {(i, j)};
    assert Family([i, j], f) && |f| == 1;
    MatchingMaximum(ByAmount, [i, j], f);
  }

  lemma {:induction false} RoundIsProduced(cfg: Config, s: Session, batchId: string)
    requires |s.intents| >= 2 && DistinctNodes(cfg.nodes) && AllOpen(cfg, s.shares, cfg.nodes)
    requires AllReadable(Stored(cfg, s))
    ensures Enough(OpenTable(cfg, s.shares, cfg.nodes).0, cfg.nodes, s.intents)
    ensures var o := LocalRound(cfg, s, batchId).1;
            o.Produced? && o.batch.matches == MatchesFor(cfg, OpenTable(cfg, s.shares, cfg.nodes).0, s.intents)
  {
    OpenTableIff(cfg, s.shares, cfg.nodes);
    StoredIsRead(cfg, s);
    NoTrouble(OpenTable(cfg, s.shares, cfg.nodes).0, cfg.nodes, s.intents);
  }

  lemma {:induction false} PlainPair(shares: ShareTable, nodes: seq<string>, x: MpcIntent, y: MpcIntent)
    requires Enough(shares, nodes, [("x", x), ("y", y)])
    requires x.inputAsset == y.outputAsset == "A" && x.outputAsset == y.inputAsset == "B"
    ensures Netting.Matching(ByAmount, Reconstructed(shares, nodes, [("x", x), ("y", y)])) != []
  {
    var plain := Reconstructed(shares, nodes, [("x", x), ("y", y)]);
    assert plain == [plain[0], plain[1]];
    Complements(plain[0], plain[1]);
  }

  /** A round over two clients in opposite directions, all of whose shares open to numbers, matches them. */
  lemma {:induction false} PairIsMatched(cfg: Config, s: Session, x: MpcIntent, y: MpcIntent, batchId: string)
    requires cfg.sort == ByAmount && s.intents == [("x", x), ("y", y)]
    requires x.inputAsset == y.outputAsset == "A" && x.outputAsset == y.inputAsset == "B"
    requires DistinctNodes(cfg.nodes) && AllOpen(cfg, s.shares, cfg.nodes) && AllReadable(Stored(cfg, s))
    ensures LocalRound(cfg, s, batchId).1.Produced? && LocalRound(cfg, s, batchId).1.batch.matches != []
  {
    RoundIsProduced(cfg, s, batchId);
    PlainPair(OpenTable(cfg, s.shares, cfg.nodes).0, cfg.nodes, x, y);
  }

  /** Two clients in opposite directions are matched by a round of this committee. */
  lemma {:induction false} TwoAreMatched(now: string, batchId: string)
    ensures LocalRound(PAIR, Two(now, "good"), batchId).1.Produced?
    ensures LocalRound(PAIR, Two(now, "good"), batchId).1.batch.matches != []
  {
    TwoIntents(now, "good");
    TwoOpen(now, "good");
    TwoOffers(now, "good");
    PairIsMatched(PAIR, Two(now, "good"), Client("x", "A", "B", "good"), Client("y", "B", "A", "good"), batchId);
  }

  /** So the same two, submitted again after their session was signed, are matched a second time. */
  lemma {:induction false} TwoAreMatchedTwice() returns (first: seq<Step>, second: seq<Step>)
    ensures Run(PAIR, INITIAL, first) && Run(PAIR, Reached(PAIR, INITIAL, first), second)
    ensures !MatchedAtMostOnce(Reached(PAIR, Reached(PAIR, INITIAL, first), second).log)
  {
    ByAmountSorts();
    TwoAreMatched("session-1", "batch-1");
    first, second := ResubmissionMatchesTwice(
      PAIR, Client("x", "A", "B", "good"), Client("y", "B", "A", "good"),
      "session-1", "session-2", "batch-1", "batch-2");
  }

  // ---------- a share that is no numbers ----------

  lemma {:induction false} RoundThrows(cfg: Config, s: Session, batchId: string)
    requires |s.intents| >= 2 && DistinctNodes(cfg.nodes) && AllOpen(cfg, s.shares, cfg.nodes)
    requires MalformedFirst(Stored(cfg, s))
    ensures LocalRound(cfg, s, batchId).1.Threw?
    ensures forall i, id | 0 <= i < |cfg.nodes| ::
              Decrypted(LocalRound(cfg, s, batchId).0.shares, cfg.nodes[i], id)
              == StoredFor(cfg, cfg.nodes[i], SlotsOf(s.shares, cfg.nodes[i]), id)
  {
    OpenTableIff(cfg, s.shares, cfg.nodes);
    StoredIsRead(cfg, s);
    forall i, id | 0 <= i < |cfg.nodes|
      ensures Decrypted(OpenTable(cfg, s.shares, cfg.nodes).0, cfg.nodes[i], id)
           == StoredFor(cfg, cfg.nodes[i], SlotsOf(s.shares, cfg.nodes[i]), id)
    {
      OpenTableFills(cfg, s.shares, cfg.nodes, i, id);
    }
  }

  /** The other client's share is among those the round had opened. */
  lemma {:induction false} TwoThrow(now: string, batchId: string)
    ensures LocalRound(PAIR, Two(now, "bad"), batchId).1.Threw?
    ensures Decrypted(LocalRound(PAIR, Two(now, "bad"), batchId).0.shares, "a", "x") == Some(OpensTo("a", "good"))
  {
    TwoIntents(now, "bad");
    TwoOpen(now, "bad");
    TwoOffers(now, "bad");
    RoundThrows(PAIR, Two(now, "bad"), batchId);
    TwoStored(now, "bad", "a");
    assert PAIR.nodes[0] == "a";
  }

  /** One client's malformed shares strand the session, and the other client's share stays readable in it;
      no run that follows takes the session on. */
  lemma {:induction false} OneMalformedShareStrands() returns (steps: seq<Step>)
    ensures Run(PAIR, INITIAL, steps) && Stuck(Reached(PAIR, INITIAL, steps), 0)
    ensures Decrypted(Reached(PAIR, INITIAL, steps).state.sessions[0].shares, "a", "x") == Some(OpensTo("a", "good"))
    ensures forall more | Run(PAIR, Reached(PAIR, INITIAL, steps), more) ::
              Stuck(Reached(PAIR, Reached(PAIR, INITIAL, steps), more), 0)
  {
    ByAmountSorts();
    TwoThrow("session-1", "batch-1");
    steps := MalformedShareStrands(
      PAIR, Client("x", "A", "B", "good"), Client("y", "B", "A", "bad"), "session-1", "batch-1");
    var sys := Reached(PAIR, INITIAL, steps);
    forall more | Run(PAIR, sys, more) ensures Stuck(Reached(PAIR, sys, more), 0) {
      StuckForEver(PAIR, sys, more, 0);
    }
  }
}
