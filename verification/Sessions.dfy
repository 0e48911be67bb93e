/** Matching sessions: the intents collected, one share slot per node and intent, and the result. */
module Sessions {
  import opened JsMap
  import Netting
  import Shamir

  type Share = Shamir.Share

  datatype SealedShare = SealedShare(nodeId: string, ciphertext: string, nonce: string, senderPubkey: string)

  datatype MpcIntent = MpcIntent(
    intentId: string, inputAsset: string, outputAsset: string, encryptedShares: seq<SealedShare>)

  /** What a share opens to is whatever its submitter sealed: two integers, or any other JSON text. */
  datatype OpenShare = Numbers(share: Share) | Malformed(text: string)

  /** A node's slot for one intent; `decrypted` holds the plaintext share from its opening until the round
      clears it, so a round that fails or throws before that leaves it there. */
  datatype ShareEntry = ShareEntry(sealed: SealedShare, decrypted: Option<OpenShare>)

  type NodeShares = OrderedMap<string, ShareEntry>

  type ShareTable = OrderedMap<string, NodeShares>

  datatype Status = Open | Matching | Signed | Failed

  datatype Signature = Signature(nodeId: string, value: string)

  datatype Batch = Batch(
    batchId: string, sessionId: string, matches: seq<Netting.MatchResult>, signatures: seq<Signature>)

  datatype Session = Session(
    sessionId: string, status: Status,
    intents: OrderedMap<string, MpcIntent>, shares: ShareTable,
    batch: Option<Batch>)

  function NewSession(sessionId: string): Session {
    Session(sessionId, Open, [], [], None)
  }

  /** The slots of one node, empty when the node has none. */
  function SlotsOf(shares: ShareTable, node: string): NodeShares {
    if Has(shares, node) then Get(shares, node) else []
  }

  function PlainIn(slots: NodeShares, intentId: string): Option<OpenShare> {
    if Has(slots, intentId) then Get(slots, intentId).decrypted else None
  }

  function Decrypted(shares: ShareTable, node: string, intentId: string): Option<OpenShare> {
    PlainIn(SlotsOf(shares, node), intentId)
  }

  function StoreShare(shares: ShareTable, intentId: string, sealed: SealedShare): ShareTable {
    Put(shares, sealed.nodeId, Put(SlotsOf(shares, sealed.nodeId), intentId, ShareEntry(sealed, None)))
  }

  function StoreShares(shares: ShareTable, intentId: string, sealed: seq<SealedShare>): ShareTable {
    if sealed == [] then shares
    else
      var n := |sealed| - 1;
      StoreShare(StoreShares(shares, intentId, sealed[..n]), intentId, sealed[n])
  }

  /** Registers an intent with a session: its slots start without a plaintext share. */
  function Accept(s: Session, intent: MpcIntent): Session {
    s.(intents := Put(s.intents, intent.intentId, intent),
       shares := StoreShares(s.shares, intent.intentId, intent.encryptedShares))
  }

  // ---------- where plaintext shares are ----------

  /** Only slots of the given nodes may hold a plaintext share. */
  ghost predicate PlaintextOnlyFor(shares: ShareTable, nodes: set<string>) {
    forall node, id | Decrypted(shares, node, id).Some? :: node in nodes
  }

  ghost predicate NoPlaintext(shares: ShareTable) {
    PlaintextOnlyFor(shares, {})
  }

  lemma {:induction false} SlotsOfPut(shares: ShareTable, node: string, slots: NodeShares, other: string)
    ensures SlotsOf(Put(shares, node, slots), other) == if other == node then slots else SlotsOf(shares, other)
  {
    PutFind(shares, node, slots, other);
    assert Find(Put(shares, node, slots), other).Some? <==> Has(Put(shares, node, slots), other);
  }

  lemma {:induction false} PlainInPut(slots: NodeShares, id: string, e: ShareEntry, other: string)
    ensures PlainIn(Put(slots, id, e), other) == if other == id then e.decrypted else PlainIn(slots, other)
  {
    PutFind(slots, id, e, other);
    assert Find(Put(slots, id, e), other).Some? <==> Has(Put(slots, id, e), other);
    assert Find(slots, other).Some? <==> Has(slots, other);
  }

  lemma {:induction false} StoreSharesPlaintext(
    shares: ShareTable, intentId: string, sealed: seq<SealedShare>, nodes: set<string>)
    requires PlaintextOnlyFor(shares, nodes)
    ensures PlaintextOnlyFor(StoreShares(shares, intentId, sealed), nodes)
  {
    if sealed != [] {
      var n := |sealed| - 1;
      StoreSharesPlaintext(shares, intentId, sealed[..n], nodes);
      var t := StoreShares(shares, intentId, sealed[..n]);
      var s := sealed[n];
      forall node, id | Decrypted(StoreShare(t, intentId, s), node, id).Some? ensures node in nodes {
        var slots := SlotsOf(t, s.nodeId);
        SlotsOfPut(t, s.nodeId, Put(slots, intentId, ShareEntry(s, None)), node);
        PlainInPut(slots, intentId, ShareEntry(s, None), id);
        assert Decrypted(t, node, id) == PlainIn(SlotsOf(t, node), id);
      }
    }
  }
}
