/** The committee's objects: sessions updated in place by rounds, and the state object that owns
    them. Each method is tied to the step function of the same name. */
module CommitteeObjects {
  import opened JsMap
  import opened Sessions
  import opened Rounds
  import Netting
  import Committee

  class SessionState {
    const sessionId: string
    var status: Status
    var intents: OrderedMap<string, MpcIntent>
    var shares: ShareTable
    var signedBatch: Option<Batch>

    ghost function Value(): Session
      reads this
    {
      Session(sessionId, status, intents, shares, signedBatch)
    }

    constructor (sessionId: string)
      ensures Value() == NewSession(sessionId)
    {
      this.sessionId := sessionId;
      status, intents, shares, signedBatch := Open, [], [], None;
    }

    method Accept(intent: MpcIntent)
      modifies this
      ensures Value() == Sessions.Accept(old(Value()), intent)
    {
      intents := Put(intents, intent.intentId, intent);
      ghost var before := shares;
      var all := intent.encryptedShares;
      for i := 0 to |all|
        invariant shares == StoreShares(before, intent.intentId, all[..i])
        invariant intents == old(Sessions.Accept(Value(), intent)).intents
        invariant status == old(status) && signedBatch == old(signedBatch)
      {
        assert all[..i + 1][..i] == all[..i];
        var sealed := all[i];
        var slots := SlotsOf(shares, sealed.nodeId);
        shares := Put(shares, sealed.nodeId, Put(slots, intent.intentId, ShareEntry(sealed, None)));
      }
      assert all[..|all|] == all;
    }

    method RunMatchingRound(cfg: Config, batchId: string) returns (o: Outcome)
      modifies this
      ensures (Value(), o) == LocalRound(cfg, old(Value()), batchId)
    {
      if |intents| < 2 { return NeedTwoIntents; }
      status := Matching;
      var ok;
      shares, ok := OpenAll(cfg, shares);
      if !ok {
        status := Failed;
        return DecryptFailed;
      }
      var reading := ReconstructAll(shares, cfg.nodes, intents);
      if reading.Unreadable? { return Threw; }
      if reading.Short? {
        status := Failed;
        return TooFewShares;
      }
      shares := ClearAll(shares, cfg.nodes);
      var matches := Netting.MatchIntents(cfg.sort, reading.value);
      var signatures := SignAll(cfg, batchId, matches);
      var b := Batch(batchId, sessionId, matches, signatures);
      signedBatch := Some(b);
      status := Signed;
      o := Produced(b);
    }

    /** Up to the request to sign: stores the answers, reconstructs, clears and matches. */
    method StoreAnswers(cfg: Config, replies: seq<Option<Reply>>) returns (p: Progress)
      modifies this
      ensures (Value(), p) == RemoteDecrypted(cfg, old(Value()), replies)
    {
      var responding := Present(replies);
      if |responding| < Threshold(|cfg.nodes|) {
        status := Failed;
        return Stopped(TooFewNodes);
      }
      shares := ApplyAll(shares, responding);
      var reading := ReconstructAll(shares, cfg.nodes, intents);
      if reading.Unreadable? { return Stopped(Threw); }
      if reading.Short? {
        status := Failed;
        return Stopped(TooFewShares);
      }
      shares := ClearAll(shares, cfg.nodes);
      var matches := Netting.MatchIntents(cfg.sort, reading.value);
      p := Continues(matches);
    }

    /** The remote round, given every answer the nodes send. */
    method RunMatchingRoundRemote(
      cfg: Config, replies: seq<Option<Reply>>, batchId: string, sigs: seq<Option<Signature>>)
      returns (o: Outcome)
      modifies this
      ensures (Value(), o) == RemoteRound(cfg, old(Value()), replies, batchId, sigs)
    {
      if |intents| < 2 { return NeedTwoIntents; }
      status := Matching;
      var p := StoreAnswers(cfg, replies);
      if p.Stopped? { return p.outcome; }
      var signatures := Present(sigs);
      if |signatures| < Threshold(|cfg.nodes|) {
        status := Failed;
        return TooFewSignatures;
      }
      var b := Batch(batchId, sessionId, p.matches, signatures);
      signedBatch := Some(b);
      status := Signed;
      o := Produced(b);
    }
  }

  /** The two maps have the same ids in the same order, one with objects and one with their positions. */
  ghost predicate Aligned(
    slots: OrderedMap<string, nat>, sessions: OrderedMap<string, SessionState>, created: seq<SessionState>)
  {
    && |slots| == |sessions|
    && forall k | 0 <= k < |slots| ::
         slots[k].0 == sessions[k].0 && slots[k].1 < |created| && created[slots[k].1] == sessions[k].1
  }

  lemma {:induction false} SameIndexIn(
    slots: OrderedMap<string, nat>, sessions: OrderedMap<string, SessionState>, created: seq<SessionState>, id: string)
    requires Aligned(slots, sessions, created)
    ensures Index(slots, id) == Index(sessions, id)
  {
  }

  lemma {:induction false} PutTogether(
    slots: OrderedMap<string, nat>, sessions: OrderedMap<string, SessionState>, created: seq<SessionState>,
    id: string, s: SessionState)
    requires Aligned(slots, sessions, created)
    ensures Aligned(Put(slots, id, |created|), Put(sessions, id, s), created + [s])
  {
    SameIndexIn(slots, sessions, created, id);
  }

  class CommitteeState {
    var sessions: OrderedMap<string, SessionState>
    var intentToSession: OrderedMap<string, string>
    ghost var created: seq<SessionState>
    ghost var slots: OrderedMap<string, nat>

    /** `created` lists every session object ever made, `slots` the position behind each id. */
    ghost predicate Valid()
      reads this
    {
      Aligned(slots, sessions, created) && forall i, j | 0 <= i < j < |created| :: created[i] != created[j]
    }

    ghost function Values(): seq<Session>
      reads this, created
    {
      seq(|created|, i requires 0 <= i < |created| reads this, created => created[i].Value())
    }

    ghost function View(): Committee.State
      reads this, created
    {
      Committee.State(Values(), slots, intentToSession)
    }

    constructor ()
      ensures Valid() && View() == Committee.EMPTY
    {
      sessions, intentToSession := [], [];
      created, slots := [], [];
    }

    method CreateSession(sessionId: string) returns (s: SessionState)
      requires Valid()
      modifies this
      ensures Valid() && fresh(s) && s.Value() == NewSession(sessionId)
      ensures View() == Committee.CreateSession(old(View()), sessionId)
      ensures created == old(created) + [s]
    {
      s := new SessionState(sessionId);
      SetSession(sessionId, s);
      assert Values() == old(Values()) + [NewSession(sessionId)];
    }

    method SetSession(sessionId: string, s: SessionState)
      requires Valid() && s !in created
      modifies this
      ensures Valid() && created == old(created) + [s] && intentToSession == old(intentToSession)
      ensures slots == Put(old(slots), sessionId, |old(created)|)
    {
      PutTogether(slots, sessions, created, sessionId, s);
      sessions := Put(sessions, sessionId, s);
      slots := Put(slots, sessionId, |created|);
      created := created + [s];
    }

    method GetOrCreateOpenSession(now: string) returns (s: SessionState)
      requires Valid()
      modifies this
      ensures Valid() && View() == Committee.WithOpen(old(View()), now)
      ensures Committee.OpenOrLast(old(View()), now) < |created| && created[Committee.OpenOrLast(old(View()), now)] == s
      ensures fresh(s) || s in old(created)
      ensures old(created) <= created && forall x | x in created :: x in old(created) || x == s
    {
      for k := 0 to |sessions|
        invariant Committee.OpenSlot(View(), 0) == Committee.OpenSlot(View(), k)
        invariant Valid() && unchanged(this)
      {
        assert created[slots[k].1].Value() == View().sessions[slots[k].1];
        if sessions[k].1.status == Open {
          return sessions[k].1;
        }
      }
      s := CreateSession(now);
    }

    method AddIntent(intent: MpcIntent, now: string) returns (sessionId: string)
      requires Valid()
      modifies this, created
      ensures Valid() && View() == Committee.AddIntent(old(View()), intent, now)
      ensures sessionId
           == Committee.WithOpen(old(View()), now).sessions[Committee.OpenOrLast(old(View()), now)].sessionId
    {
      var s := GetOrCreateOpenSession(now);
      ghost var slot := Committee.OpenOrLast(old(View()), now);
      label L:
      assert View().sessions[slot] == s.Value();
      s.Accept(intent);
      intentToSession := Put(intentToSession, intent.intentId, s.sessionId);
      sessionId := s.sessionId;
      assert View().sessions == old@L(View().sessions)[slot := s.Value()];
    }

    method GetSession(sessionId: string) returns (s: SessionState?)
      requires Valid()
      ensures s == null <==> Committee.GetSession(View(), sessionId).None?
      ensures s != null ==> created[Committee.GetSession(View(), sessionId).value] == s
    {
      SameIndexIn(slots, sessions, created, sessionId);
      s := if Has(sessions, sessionId) then Get(sessions, sessionId) else null;
    }

    method GetSessionForIntent(intentId: string) returns (s: SessionState?)
      requires Valid()
      ensures s == null <==> Committee.GetSessionForIntent(View(), intentId).None?
      ensures s != null ==> created[Committee.GetSessionForIntent(View(), intentId).value] == s
    {
      if !Has(intentToSession, intentId) { return null; }
      s := GetSession(Get(intentToSession, intentId));
    }
  }
}
