/** What the greedy priced matcher guarantees over a whole list: maximality, at least half of the
    best possible number of matches, and conservation of every asset. */
module PricedGreedy {
  import opened Pairings
  import opened PricedCrossing

  ghost predicate DistinctIds(intents: seq<PricedIntent>) {
    forall i, j | 0 <= i < j < |intents| :: intents[i].id != intents[j].id
  }

  /** The positions of the matched pairs. */
  ghost function Positions(fills: seq<Fill>): set<(nat, nat)> {
    set f | f in fills :: (f.i, f.j)
  }

  ghost predicate Valid(intents: seq<PricedIntent>, f: Fill) {
    f.i < |intents| && f.j < |intents| && f.i != f.j && MatchPricedPair(intents[f.i], intents[f.j]) == Crosses(f.m)
  }

  /** Every fill is a crossing of two intents not used before, and no position is filled twice. */
  ghost predicate Sound(intents: seq<PricedIntent>, used: set<string>, fills: seq<Fill>) {
    && (forall f | f in fills :: Valid(intents, f) && intents[f.i].id !in used && intents[f.j].id !in used)
    && (forall p, q | 0 <= p < q < |fills| :: {fills[p].i, fills[p].j} !! {fills[q].i, fills[q].j})
  }

  lemma {:induction false} GreedySound(intents: seq<PricedIntent>, i: nat, used: set<string>)
    requires i <= |intents| && GreedyFrom(intents, i, used).Returned?
    ensures Sound(intents, used, GreedyFrom(intents, i, used).fills)
    decreases |intents| - i
  {
    if i < |intents| {
      var hit := Scan(intents, i, 0, used);
      if intents[i].id in used || hit.NoneFound? {
        GreedySound(intents, i + 1, used);
      } else {
        var used1 := used + {intents[i].id, intents[hit.j].id};
        GreedySound(intents, i + 1, used1);
        var fills := GreedyFrom(intents, i + 1, used1).fills;
        forall f | f in fills ensures {i, hit.j} !! {f.i, f.j} {
          assert intents[f.i].id !in used1 && intents[f.j].id !in used1;
        }
      }
    }
  }

  ghost function Filled(fills: seq<Fill>): set<nat> {
    Ends(Positions(fills))
  }

  lemma {:induction false} FillsDisjoint(intents: seq<PricedIntent>, used: set<string>, fills: seq<Fill>)
    requires Sound(intents, used, fills)
    ensures Disjoint(Positions(fills))
  {
    forall p, q | p in Positions(fills) && q in Positions(fills) && p != q
      ensures p.0 != q.0 && p.0 != q.1 && p.1 != q.1
    {
      var a :| 0 <= a < |fills| && (fills[a].i, fills[a].j) == p;
      var b :| 0 <= b < |fills| && (fills[b].i, fills[b].j) == q;
      assert {fills[a].i, fills[a].j} !! {fills[b].i, fills[b].j};
      assert p.0 in {fills[a].i, fills[a].j} && p.1 in {fills[a].i, fills[a].j};
    }
  }

  lemma {:induction false} PositionsDisjoint(intents: seq<PricedIntent>, used: set<string>, fills: seq<Fill>)
    requires Sound(intents, used, fills)
    ensures Disjoint(Positions(fills)) && |Filled(fills)| == 2 * |fills|
  {
    var ps := seq(|fills|, k requires 0 <= k < |fills| => (fills[k].i, fills[k].j));
    assert Positions(fills) == (set p | p in ps) by {
      assert forall k | 0 <= k < |fills| :: ps[k] in ps && fills[k] in fills;
    }
    forall a, b | 0 <= a < b < |ps| ensures ps[a] != ps[b] {
      assert fills[a].i in {fills[a].i, fills[a].j};
    }
    NoDuplicatesCount(ps);
    FillsDisjoint(intents, used, fills);
    EndsCount(Positions(fills));
  }

  /** A scan that finds nothing has tried every unused position. */
  lemma {:induction false} ScanComplete(intents: seq<PricedIntent>, i: nat, j: nat, used: set<string>, y: nat)
    requires i < |intents| && j <= y < |intents| && y != i
    requires Scan(intents, i, j, used) == NoneFound && intents[i].id !in used && intents[y].id !in used
    ensures MatchPricedPair(intents[i], intents[y]).NoMatch?
    decreases |intents| - j
  {
    if j < y {
      ScanComplete(intents, i, j + 1, used, y);
    }
  }

  // ---------- first come, first served ----------

  /** Position k may be tried for position i. */
  ghost predicate Open(intents: seq<PricedIntent>, used: set<string>, i: nat, k: nat) {
    i < |intents| && k < |intents| && k != i && intents[i].id !in used && intents[k].id !in used
  }

  /** The first open position from j on that does not simply fail to match decides. */
  lemma {:induction false} ScanFirst(intents: seq<PricedIntent>, i: nat, j: nat, used: set<string>) returns (k: nat)
    requires i < |intents| && j <= |intents|
    ensures j <= k <= |intents|
    ensures forall l | j <= l < k && Open(intents, used, i, l) :: MatchPricedPair(intents[i], intents[l]).NoMatch?
    ensures match Scan(intents, i, j, used)
            case NoneFound => k == |intents|
            case Found(l, m) =>
              l == k && Open(intents, used, i, k) && MatchPricedPair(intents[i], intents[k]) == Crosses(m)
            case ScanThrows => Open(intents, used, i, k) && MatchPricedPair(intents[i], intents[k]).Throws?
    decreases |intents| - j
  {
    if j == |intents| || (Open(intents, used, i, j) && !MatchPricedPair(intents[i], intents[j]).NoMatch?) {
      k := j;
    } else {
      k := ScanFirst(intents, i, j + 1, used);
    }
  }

  /** The ids taken when the matcher comes to position x. */
  ghost function TakenAt(intents: seq<PricedIntent>, used: set<string>, fills: seq<Fill>, x: nat): set<string> {
    used + (set f | f in fills && f.i < x && f.i < |intents| :: intents[f.i].id)
         + (set f | f in fills && f.i < x && f.j < |intents| :: intents[f.j].id)
  }

  ghost predicate HasFill(fills: seq<Fill>, x: nat) {
    exists f :: f in fills && f.i == x
  }

  /** Position x, unless taken, is filled with the first open position that crosses with it, if any. */
  ghost predicate Served(intents: seq<PricedIntent>, taken: set<string>, fills: seq<Fill>, x: nat)
    requires x < |intents|
  {
    if exists k: nat :: CanFill(intents, taken, x, k)
    then exists f :: f in fills && IsFirst(intents, taken, x, f)
    else !HasFill(fills, x)
  }

  ghost predicate CanFill(intents: seq<PricedIntent>, taken: set<string>, x: nat, k: nat) {
    Open(intents, taken, x, k) && MatchPricedPair(intents[x], intents[k]).Crosses?
  }

  /** The fill joins position x with the first open position that crosses with it. */
  ghost predicate IsFirst(intents: seq<PricedIntent>, taken: set<string>, x: nat, f: Fill) {
    && f.i == x && Open(intents, taken, x, f.j) && MatchPricedPair(intents[x], intents[f.j]) == Crosses(f.m)
    && forall k: nat | k < f.j && Open(intents, taken, x, k) :: MatchPricedPair(intents[x], intents[k]).NoMatch?
  }

  /** Positions are served in their order, each from what is left. */
  ghost predicate FirstCome(intents: seq<PricedIntent>, i: nat, used: set<string>, fills: seq<Fill>) {
    && (forall f | f in fills :: i <= f.i < |intents|)
    && (forall p, q | 0 <= p < q < |fills| :: fills[p].i < fills[q].i)
    && (forall x | i <= x < |intents| :: Served(intents, TakenAt(intents, used, fills, x), fills, x))
  }

  lemma {:induction false} TakenAfter(intents: seq<PricedIntent>, used: set<string>, f: Fill, rest: seq<Fill>, x: nat)
    requires f.i < |intents| && f.j < |intents| && f.i < x
    ensures TakenAt(intents, used, [f] + rest, x)
         == TakenAt(intents, used + {intents[f.i].id, intents[f.j].id}, rest, x)
  {
    assert forall g :: g in [f] + rest <==> g == f || g in rest;
  }

  lemma {:induction false} TakenNow(intents: seq<PricedIntent>, used: set<string>, fills: seq<Fill>, x: nat)
    requires forall f | f in fills :: x <= f.i
    ensures TakenAt(intents, used, fills, x) == used
  {
  }

  /** Being served does not depend on the fills of other positions. */
  lemma {:induction false} ServedAlike(
    intents: seq<PricedIntent>, taken: set<string>, fills: seq<Fill>, more: seq<Fill>, x: nat)
    requires x < |intents| && Served(intents, taken, fills, x)
    requires forall f: Fill | f.i == x :: f in fills <==> f in more
    ensures Served(intents, taken, more, x)
  {
    if HasFill(more, x) {
      var f :| f in more && f.i == x;
      assert f in fills && HasFill(fills, x);
    }
  }

  lemma {:induction false} NotServed(intents: seq<PricedIntent>, i: nat, used: set<string>, fills: seq<Fill>)
    requires i < |intents| && (intents[i].id in used || Scan(intents, i, 0, used).NoneFound?)
    requires FirstCome(intents, i + 1, used, fills)
    ensures FirstCome(intents, i, used, fills)
  {
    TakenNow(intents, used, fills, i);
    if intents[i].id !in used { var k := ScanFirst(intents, i, 0, used); }
    assert forall k: nat :: !CanFill(intents, used, i, k);
    assert !HasFill(fills, i);
    forall x | i <= x < |intents| ensures Served(intents, TakenAt(intents, used, fills, x), fills, x) {
    }
  }

  lemma {:induction false} ServedFirst(intents: seq<PricedIntent>, i: nat, used: set<string>, f: Fill, rest: seq<Fill>)
    requires i < |intents| && intents[i].id !in used && Scan(intents, i, 0, used) == Found(f.j, f.m) && f.i == i
    requires FirstCome(intents, i + 1, used + {intents[i].id, intents[f.j].id}, rest)
    ensures FirstCome(intents, i, used, [f] + rest)
  {
    var fills := [f] + rest;
    var k := ScanFirst(intents, i, 0, used);
    assert f in fills && forall g | g in rest :: g in fills;
    assert forall g :: g in fills <==> g == f || g in rest;
    forall p, q | 0 <= p < q < |fills| ensures fills[p].i < fills[q].i {
      assert p > 0 ==> fills[p] == rest[p - 1];
      assert fills[q] == rest[q - 1] && rest[q - 1] in rest;
    }
    forall x | i <= x < |intents| ensures Served(intents, TakenAt(intents, used, fills, x), fills, x) {
      if x == i {
        TakenNow(intents, used, fills, i);
        assert CanFill(intents, used, i, f.j) && IsFirst(intents, used, i, f);
      } else {
        TakenAfter(intents, used, f, rest, x);
        ServedAlike(intents, TakenAt(intents, used, fills, x), rest, fills, x);
      }
    }
  }

  lemma {:induction false} GreedyFirstCome(intents: seq<PricedIntent>, i: nat, used: set<string>)
    requires i <= |intents| && GreedyFrom(intents, i, used).Returned?
    ensures FirstCome(intents, i, used, GreedyFrom(intents, i, used).fills)
    decreases |intents| - i
  {
    if i < |intents| {
      var hit := Scan(intents, i, 0, used);
      if intents[i].id in used || hit.NoneFound? {
        GreedyFirstCome(intents, i + 1, used);
        NotServed(intents, i, used, GreedyFrom(intents, i + 1, used).fills);
      } else {
        var used1 := used + {intents[i].id, intents[hit.j].id};
        GreedyFirstCome(intents, i + 1, used1);
        ServedFirst(intents, i, used, Fill(i, hit.j, hit.m), GreedyFrom(intents, i + 1, used1).fills);
      }
    }
  }

  /** The whole list: every intent in its turn, unless taken before, is matched with the first intent not
      taken before that it crosses with, and is left alone iff there is none. */
  lemma {:induction false} EachInTurn(intents: seq<PricedIntent>)
    requires PricedMatching(intents).Returned?
    ensures FirstCome(intents, 0, {}, PricedMatching(intents).fills)
  {
    GreedyFirstCome(intents, 0, {});
  }

  /** The matcher throws only where some pair does. */
  lemma {:induction false} ThrowHasCause(intents: seq<PricedIntent>, i: nat, used: set<string>) returns (x: nat, k: nat)
    requires i <= |intents| && GreedyFrom(intents, i, used).Threw?
    ensures i <= x < |intents| && k < |intents| && k != x && MatchPricedPair(intents[x], intents[k]).Throws?
    decreases |intents| - i
  {
    var hit := Scan(intents, i, 0, used);
    if intents[i].id in used || hit.NoneFound? {
      x, k := ThrowHasCause(intents, i + 1, used);
    } else if hit.Found? {
      x, k := ThrowHasCause(intents, i + 1, used + {intents[i].id, intents[hit.j].id});
    } else {
      x := i;
      k := ScanFirst(intents, i, 0, used);
    }
  }

  ghost predicate Unused(intents: seq<PricedIntent>, used: set<string>, fills: seq<Fill>, x: nat) {
    x < |intents| && intents[x].id !in used && x !in Filled(fills)
  }

  lemma {:induction false} GreedyMaximal(intents: seq<PricedIntent>, i: nat, used: set<string>, x: nat, y: nat)
    requires DistinctIds(intents) && i <= x < |intents| && x != y && GreedyFrom(intents, i, used).Returned?
    requires Unused(intents, used, GreedyFrom(intents, i, used).fills, x)
    requires Unused(intents, used, GreedyFrom(intents, i, used).fills, y)
    ensures MatchPricedPair(intents[x], intents[y]).NoMatch?
    decreases |intents| - i
  {
    var hit := Scan(intents, i, 0, used);
    if intents[i].id in used {
      GreedyMaximal(intents, i + 1, used, x, y);
    } else if hit.NoneFound? {
      if i == x {
        ScanComplete(intents, i, 0, used, y);
      } else {
        GreedyMaximal(intents, i + 1, used, x, y);
      }
    } else {
      var used1 := used + {intents[i].id, intents[hit.j].id};
      var rest := GreedyFrom(intents, i + 1, used1).fills;
      var f := Fill(i, hit.j, hit.m);
      assert f in [f] + rest;
      assert (f.i, f.j) in Positions([f] + rest);
      assert Filled(rest) <= Filled([f] + rest) by {
        assert forall g :: g in rest ==> g in [f] + rest;
      }
      GreedyMaximal(intents, i + 1, used1, x, y);
    }
  }

  /** At the end no two unused intents cross, in either order. */
  lemma {:induction false} NothingLeftCrosses(intents: seq<PricedIntent>, x: nat, y: nat)
    requires DistinctIds(intents) && PricedMatching(intents).Returned?
    requires x < |intents| && y < |intents| && x != y
    requires x !in Filled(PricedMatching(intents).fills) && y !in Filled(PricedMatching(intents).fills)
    ensures MatchPricedPair(intents[x], intents[y]).NoMatch? && MatchPricedPair(intents[y], intents[x]).NoMatch?
  {
    GreedyMaximal(intents, 0, {}, x, y);
    GreedyMaximal(intents, 0, {}, y, x);
  }

  /** Twice the number of matches is at least the size of any family of disjoint crossing pairs. */
  lemma {:induction false} HalfOfOptimal(intents: seq<PricedIntent>, best: set<(nat, nat)>)
    requires DistinctIds(intents) && PricedMatching(intents).Returned?
    requires Disjoint(best)
    requires forall p | p in best ::
               p.0 < |intents| && p.1 < |intents| && MatchPricedPair(intents[p.0], intents[p.1]).Crosses?
    ensures |best| <= 2 * |PricedMatching(intents).fills|
  {
    var fills := PricedMatching(intents).fills;
    GreedySound(intents, 0, {});
    PositionsDisjoint(intents, {}, fills);
    var covered := Filled(fills);
    var end := (p: (nat, nat)) => if p.0 in covered then p.0 else p.1;
    forall p | p in best ensures end(p) in covered {
      if p.0 !in covered && p.1 !in covered {
        NothingLeftCrosses(intents, p.0, p.1);
      }
    }
    InjectionCount(best, covered, end);
  }

  /** Without zero amounts the matcher never fails. */
  lemma {:induction false} ScanReturns(intents: seq<PricedIntent>, i: nat, j: nat, used: set<string>)
    requires i < |intents| && j <= |intents| && forall k | 0 <= k < |intents| :: intents[k].amount != 0
    ensures !Scan(intents, i, j, used).ScanThrows?
    decreases |intents| - j
  {
    if j < |intents| {
      ThrowsExactly(intents[i], intents[j]);
      ScanReturns(intents, i, j + 1, used);
    }
  }

  lemma {:induction false} NonZeroReturns(intents: seq<PricedIntent>, i: nat, used: set<string>)
    requires i <= |intents| && forall k | 0 <= k < |intents| :: intents[k].amount != 0
    ensures GreedyFrom(intents, i, used).Returned?
    decreases |intents| - i
  {
    if i < |intents| {
      ScanReturns(intents, i, 0, used);
      var hit := Scan(intents, i, 0, used);
      NonZeroReturns(intents, i + 1, used);
      if hit.Found? {
        NonZeroReturns(intents, i + 1, used + {intents[i].id, intents[hit.j].id});
      }
    }
  }

  // ---------- conservation ----------

  /** What the matched intents of the list spend of one asset: each its whole amount. */
  ghost function Spent(intents: seq<PricedIntent>, filled: set<nat>, asset: string): int {
    if intents == [] then 0
    else
      var n := |intents| - 1;
      Spent(intents[..n], filled, asset) + (if n in filled && intents[n].input == asset then intents[n].amount else 0)
  }

  /** What the matches hand out of one asset. */
  ghost function Received(matches: seq<PricedMatch>, asset: string): int {
    if matches == [] then 0
    else
      var m := matches[0];
      (if m.outputA == asset then m.amountB else 0) + (if m.outputB == asset then m.amountA else 0)
      + Received(matches[1..], asset)
  }

  ghost function SpentAt(intents: seq<PricedIntent>, k: nat, asset: string): int
    requires k < |intents|
  {
    if intents[k].input == asset then intents[k].amount else 0
  }

  lemma {:induction false} SpentAdd(intents: seq<PricedIntent>, filled: set<nat>, k: nat, asset: string)
    requires k < |intents| && k !in filled
    ensures Spent(intents, filled + {k}, asset) == Spent(intents, filled, asset) + SpentAt(intents, k, asset)
  {
    var n := |intents| - 1;
    if k < n {
      SpentAdd(intents[..n], filled, k, asset);
    } else {
      SpentSame(intents[..n], filled, filled + {k}, asset);
    }
  }

  lemma {:induction false} SpentSame(intents: seq<PricedIntent>, s: set<nat>, t: set<nat>, asset: string)
    requires forall k | 0 <= k < |intents| :: k in s <==> k in t
    ensures Spent(intents, s, asset) == Spent(intents, t, asset)
  {
    if intents != [] {
      SpentSame(intents[..|intents| - 1], s, t, asset);
    }
  }

  lemma {:induction false} SpentNothing(intents: seq<PricedIntent>, asset: string)
    ensures Spent(intents, {}, asset) == 0
  {
    if intents != [] {
      SpentNothing(intents[..|intents| - 1], asset);
    }
  }

  lemma {:induction false} SoundConserves(
    intents: seq<PricedIntent>, used: set<string>, fills: seq<Fill>, asset: string)
    requires Sound(intents, used, fills)
    ensures Spent(intents, Filled(fills), asset) == Received(Matches(fills), asset)
  {
    if fills == [] {
      assert Filled(fills) == {};
      SpentNothing(intents, asset);
    } else {
      var f, rest := fills[0], fills[1..];
      SoundConserves(intents, used, rest, asset);
      assert Matches(fills)[1..] == Matches(rest);
      assert f in fills && Valid(intents, f);
      FilledCons(fills);
      FirstIsApart(intents, used, fills);
      SpentAdd(intents, Filled(rest), f.i, asset);
      SpentAdd(intents, Filled(rest) + {f.i}, f.j, asset);
      MatchFillsBoth(intents[f.i], intents[f.j]);
    }
  }

  /** The first fill's positions are in no other fill. */
  lemma {:induction false} FirstIsApart(intents: seq<PricedIntent>, used: set<string>, fills: seq<Fill>)
    requires Sound(intents, used, fills) && fills != []
    ensures fills[0].i !in Filled(fills[1..]) && fills[0].j !in Filled(fills[1..])
  {
    var f, rest := fills[0], fills[1..];
    forall g | g in rest ensures {f.i, f.j} !! {g.i, g.j} {
      var k :| 0 <= k < |rest| && rest[k] == g;
      assert fills[k + 1] == g;
    }
  }

  lemma {:induction false} FilledCons(fills: seq<Fill>)
    requires fills != []
    ensures Filled(fills) == Filled(fills[1..]) + {fills[0].i} + {fills[0].j}
  {
    assert fills == [fills[0]] + fills[1..];
    assert Positions(fills) == Positions(fills[1..]) + {(fills[0].i, fills[0].j)};
  }

  /** A priced batch conserves every asset: what its intents spend of it is what its matches pay out.
      Every matched intent is filled whole and receives at least its minimum. */
  lemma {:induction false} BatchConserves(intents: seq<PricedIntent>, asset: string)
    requires PricedMatching(intents).Returned?
    ensures var fills := PricedMatching(intents).fills;
            Spent(intents, Filled(fills), asset) == Received(Matches(fills), asset)
    ensures forall f | f in PricedMatching(intents).fills ::
              && f.i < |intents| && f.j < |intents|
              && f.m.amountA == intents[f.i].amount && f.m.amountB == intents[f.j].amount
              && f.m.amountB >= intents[f.i].minOutput && f.m.amountA >= intents[f.j].minOutput
  {
    GreedySound(intents, 0, {});
    SoundConserves(intents, {}, PricedMatching(intents).fills, asset);
    forall f | f in PricedMatching(intents).fills ensures Valid(intents, f) {
      MatchFillsBoth(intents[f.i], intents[f.j]);
    }
  }
}
