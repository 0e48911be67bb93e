/** How much the netting matcher nets between two assets, and exactly when no pairing of the two
    directions nets more. */
module NettingVolume {
  import opened Netting
  import opened NettingProofs
  import opened NettingOrder

  function PairAmount(p: (Intent, Intent)): int {
    Min(p.0.amount, p.1.amount)
  }

  ghost function Total(ps: seq<(Intent, Intent)>): int {
    if ps == [] then 0 else PairAmount(ps[0]) + Total(ps[1..])
  }

  ghost function Firsts(ps: seq<(Intent, Intent)>): seq<Intent> {
    seq(|ps|, k requires 0 <= k < |ps| => ps[k].0)
  }

  ghost function Seconds(ps: seq<(Intent, Intent)>): seq<Intent> {
    seq(|ps|, k requires 0 <= k < |ps| => ps[k].1)
  }

  ghost function Zip(a: seq<Intent>, b: seq<Intent>): seq<(Intent, Intent)>
    requires |a| == |b|
  {
    seq(|a|, k requires 0 <= k < |a| => (a[k], b[k]))
  }

  /** `ps` pairs each intent of `a` with one of `b`, using all of both. */
  ghost predicate OneToOne(ps: seq<(Intent, Intent)>, a: seq<Intent>, b: seq<Intent>) {
    multiset(Firsts(ps)) == multiset(a) && multiset(Seconds(ps)) == multiset(b)
  }

  ghost function Remove<T>(s: seq<T>, i: nat): seq<T>
    requires i < |s|
  {
    s[..i] + s[i + 1..]
  }

  // ---------- rearrangement ----------

  lemma {:induction false} RemoveMultiset<T>(s: seq<T>, i: nat)
    requires i < |s|
    ensures multiset(Remove(s, i)) == multiset(s) - multiset{s[i]}
  {
    assert s == s[..i] + [s[i]] + s[i + 1..];
  }

  lemma {:induction false} TotalRemove(ps: seq<(Intent, Intent)>, i: nat)
    requires i < |ps|
    ensures Total(ps) == Total(Remove(ps, i)) + PairAmount(ps[i])
  {
    if i == 0 {
      assert Remove(ps, 0) == ps[1..];
    } else {
      TotalRemove(ps[1..], i - 1);
      assert Remove(ps, i)[1..] == Remove(ps[1..], i - 1);
    }
  }

  lemma {:induction false} TotalUpdate(ps: seq<(Intent, Intent)>, i: nat, p: (Intent, Intent))
    requires i < |ps|
    ensures Total(ps[i := p]) == Total(ps) - PairAmount(ps[i]) + PairAmount(p)
  {
    TotalRemove(ps, i);
    TotalRemove(ps[i := p], i);
    assert Remove(ps[i := p], i) == Remove(ps, i);
  }

  /** Gives the pair holding `ps[i].0` the second of pair `j`, and pair `j` what it gave up. */
  ghost function Exchange(ps: seq<(Intent, Intent)>, i: nat, j: nat): seq<(Intent, Intent)>
    requires i < |ps| && j < |ps|
  {
    Remove(ps[j := (ps[j].0, ps[i].1)], i)
  }

  lemma {:induction false} ExchangeKeeps(ps: seq<(Intent, Intent)>, i: nat, j: nat)
    requires i < |ps| && j < |ps|
    ensures multiset(Firsts(Exchange(ps, i, j))) == multiset(Firsts(ps)) - multiset{ps[i].0}
    ensures multiset(Seconds(Exchange(ps, i, j))) == multiset(Seconds(ps)) - multiset{ps[j].1}
  {
    RemoveMultiset(Firsts(ps), i);
    assert Firsts(Exchange(ps, i, j)) == Remove(Firsts(ps), i);
    var moved := Seconds(ps)[j := ps[i].1];
    RemoveMultiset(moved, i);
    assert Seconds(Exchange(ps, i, j)) == Remove(moved, i);
    assert multiset(moved) == multiset(Seconds(ps)) - multiset{ps[j].1} + multiset{ps[i].1};
  }

  lemma {:induction false} ExchangeGains(ps: seq<(Intent, Intent)>, i: nat, j: nat)
    requires i < |ps| && j < |ps|
    requires ps[i].0.amount <= ps[j].0.amount && ps[j].1.amount <= ps[i].1.amount
    ensures Total(ps) <= Total(Exchange(ps, i, j)) + Min(ps[i].0.amount, ps[j].1.amount)
  {
    var qs := ps[j := (ps[j].0, ps[i].1)];
    TotalUpdate(ps, j, (ps[j].0, ps[i].1));
    TotalRemove(qs, i);
    TotalRemove(ps, i);
    if i != j {
      assert qs[i] == ps[i];
    }
  }

  lemma {:induction false} TailMultiset<T>(s: seq<T>)
    requires s != []
    ensures multiset(s[1..]) == multiset(s) - multiset{s[0]}
  {
    assert s == [s[0]] + s[1..];
  }

  lemma {:induction false} IndexOf(s: seq<Intent>, t: seq<Intent>, x: Intent) returns (i: nat)
    requires multiset(s) == multiset(t) && x in t
    ensures i < |s| && s[i] == x
  {
    assert x in multiset(s);
    i :| i < |s| && s[i] == x;
  }

  /** The two smallest intents can be paired with each other without losing volume. */
  lemma {:induction false} PairSmallest(ps: seq<(Intent, Intent)>, a: seq<Intent>, b: seq<Intent>)
    returns (rest: seq<(Intent, Intent)>)
    requires Ascending(a) && Ascending(b) && OneToOne(ps, a, b) && a != [] && b != []
    ensures OneToOne(rest, a[1..], b[1..])
    ensures Total(ps) <= Total(rest) + Min(a[0].amount, b[0].amount)
  {
    var i := IndexOf(Firsts(ps), a, a[0]);
    var j := IndexOf(Seconds(ps), b, b[0]);
    assert Firsts(ps)[j] in multiset(a) && Seconds(ps)[i] in multiset(b);
    ExchangeGains(ps, i, j);
    ExchangeKeeps(ps, i, j);
    TailMultiset(a);
    TailMultiset(b);
    rest := Exchange(ps, i, j);
  }

  /** The rearrangement inequality for the smaller of two amounts. */
  lemma {:induction false} SortedPairingIsBest(ps: seq<(Intent, Intent)>, a: seq<Intent>, b: seq<Intent>)
    requires Ascending(a) && Ascending(b) && |a| == |b| && OneToOne(ps, a, b)
    ensures Total(ps) <= Total(Zip(a, b))
    decreases |a|
  {
    if a == [] {
      assert |multiset(Firsts(ps))| == |multiset(a)|;
    } else {
      var rest := PairSmallest(ps, a, b);
      SortedPairingIsBest(rest, a[1..], b[1..]);
      assert Zip(a, b)[0] == (a[0], b[0]) && Zip(a, b)[1..] == Zip(a[1..], b[1..]);
    }
  }

  // ---------- directions of different length ----------

  ghost function SumOf(a: seq<Intent>, b: seq<Intent>): int
    requires |a| == |b|
  {
    Total(Zip(a, b))
  }

  lemma {:induction false} SumStep(a: seq<Intent>, b: seq<Intent>)
    requires |a| == |b| && a != []
    ensures SumOf(a, b) == Min(a[0].amount, b[0].amount) + SumOf(a[1..], b[1..])
  {
    assert Zip(a, b)[0] == (a[0], b[0]) && Zip(a, b)[1..] == Zip(a[1..], b[1..]);
  }

  /** Larger amounts net at least as much, and exactly as much only if every pair does. */
  lemma {:induction false} SumMonotone(a: seq<Intent>, c: seq<Intent>, b: seq<Intent>)
    requires |a| == |b| == |c| && forall k | 0 <= k < |a| :: a[k].amount <= c[k].amount
    ensures SumOf(a, b) <= SumOf(c, b)
    ensures SumOf(a, b) == SumOf(c, b) <==>
              forall k | 0 <= k < |b| :: b[k].amount <= a[k].amount || a[k].amount == c[k].amount
  {
    if a != [] {
      SumStep(a, b);
      SumStep(c, b);
      SumMonotone(a[1..], c[1..], b[1..]);
      assert forall k | 1 <= k < |b| :: b[k] == b[1..][k - 1] && a[k] == a[1..][k - 1] && c[k] == c[1..][k - 1];
    }
  }

  lemma {:induction false} AscendingTail(a: seq<Intent>)
    requires Ascending(a) && a != []
    ensures Ascending(a[1..])
  {
  }

  /** Taking a least element out of an ascending list leaves the amounts of its tail. */
  lemma {:induction false} RemoveLeast(s: seq<Intent>, j: nat)
    requires Ascending(s) && j < |s| && s[j].amount == s[0].amount
    ensures Ascending(Remove(s, j)) && |Remove(s, j)| == |s| - 1
    ensures forall k | 0 <= k < |s| - 1 :: Remove(s, j)[k].amount == s[k + 1].amount
  {
    var r := Remove(s, j);
    forall k | 0 <= k < |s| - 1 ensures r[k].amount == s[k + 1].amount {
      if k < j { assert s[0].amount <= s[k].amount <= s[k + 1].amount <= s[j].amount || k + 1 == j; }
    }
  }

  ghost predicate AtMost(s: seq<Intent>, a: seq<Intent>) {
    |s| <= |a| && forall k | 0 <= k < |s| :: s[k].amount <= a[|a| - |s| + k].amount
  }

  lemma {:induction false} AtMostCons(s: seq<Intent>, j: nat, a: seq<Intent>)
    requires Ascending(s) && Ascending(a) && a != [] && j < |s| && s[j] == a[0]
    requires s[j].amount == s[0].amount && AtMost(Remove(s, j), a[1..])
    ensures AtMost(s, a)
  {
    RemoveLeast(s, j);
    var r, d := Remove(s, j), |a| - |s|;
    forall k | 0 <= k < |s| ensures s[k].amount <= a[d + k].amount {
      if k > 0 {
        assert r[k - 1].amount == s[k].amount && a[1..][d + k - 1] == a[d + k];
      } else if d > 0 {
        assert a[0].amount <= a[d].amount;
      }
    }
  }

  lemma {:induction false} AtMostTail(s: seq<Intent>, a: seq<Intent>)
    requires a != [] && AtMost(s, a[1..])
    ensures AtMost(s, a)
  {
    forall k | 0 <= k < |s| ensures s[k].amount <= a[|a| - |s| + k].amount {
      assert a[1..][|a| - 1 - |s| + k] == a[|a| - |s| + k];
    }
  }

  lemma {:induction false} LeastFirst(s: seq<Intent>, j: nat, a: seq<Intent>)
    requires Ascending(s) && Ascending(a) && multiset(s) <= multiset(a) && a != [] && j < |s| && s[j] == a[0]
    ensures s[j].amount == s[0].amount
  {
    assert s[0] in multiset(a);
    var k :| 0 <= k < |a| && a[k] == s[0];
  }

  lemma {:induction false} TakeBoth(s: seq<Intent>, j: nat, a: seq<Intent>)
    requires multiset(s) <= multiset(a) && a != [] && j < |s| && s[j] == a[0]
    ensures multiset(Remove(s, j)) <= multiset(a[1..])
  {
    TailMultiset(a);
    RemoveMultiset(s, j);
  }

  lemma {:induction false} TakeOther(s: seq<Intent>, a: seq<Intent>)
    requires multiset(s) <= multiset(a) && a != [] && a[0] !in s
    ensures multiset(s) <= multiset(a[1..])
  {
    TailMultiset(a);
    assert a[0] !in multiset(s);
  }

  /** Some of the elements of an ascending list, in ascending order, are at most its last ones. */
  lemma {:induction false} AtMostLast(s: seq<Intent>, a: seq<Intent>)
    requires Ascending(s) && Ascending(a) && multiset(s) <= multiset(a)
    ensures AtMost(s, a)
    decreases |a|
  {
    if s != [] {
      assert s[0] in multiset(a);
      AscendingTail(a);
      if a[0] in s {
        var j :| 0 <= j < |s| && s[j] == a[0];
        LeastFirst(s, j, a);
        RemoveLeast(s, j);
        TakeBoth(s, j, a);
        AtMostLast(Remove(s, j), a[1..]);
        AtMostCons(s, j, a);
      } else {
        TakeOther(s, a);
        AtMostLast(s, a[1..]);
        AtMostTail(s, a);
      }
    }
  }

  /** `ps` gives each intent of the shorter list a partner of its own from the longer one. */
  ghost predicate Pairing(ps: seq<(Intent, Intent)>, longer: seq<Intent>, shorter: seq<Intent>) {
    multiset(Firsts(ps)) <= multiset(longer) && multiset(Seconds(ps)) == multiset(shorter)
  }

  /** The largest amounts of the longer direction net the most. */
  lemma {:induction false} LargestIsBest(sort: Sorter, ps: seq<(Intent, Intent)>, a: seq<Intent>, b: seq<Intent>)
    requires SortsByAmount(sort) && Ascending(a) && Ascending(b) && Pairing(ps, a, b)
    ensures |b| <= |a| && Total(ps) <= SumOf(a[|a| - |b|..], b)
  {
    var s := sort(Firsts(ps));
    assert multiset(s) == multiset(Firsts(ps)) && Ascending(s);
    assert |multiset(s)| == |multiset(Firsts(ps))| && |multiset(Seconds(ps))| == |multiset(b)|;
    AtMostLast(s, a);
    SortedPairingIsBest(ps, s, b);
    SumMonotone(s, a[|a| - |b|..], b);
  }

  lemma {:induction false} LastIsPairing(a: seq<Intent>, b: seq<Intent>, a0: seq<Intent>, b0: seq<Intent>)
    requires |b| <= |a| && multiset(a) == multiset(a0) && multiset(b) == multiset(b0)
    ensures Pairing(Zip(a[|a| - |b|..], b), a0, b0)
  {
    var last := a[|a| - |b|..];
    assert Firsts(Zip(last, b)) == last && Seconds(Zip(last, b)) == b;
    assert a == a[..|a| - |b|] + last;
  }

  // ---------- the volume the matcher nets for one asset pair ----------

  /** The amounts a batch reports for one asset pair, in either direction. */
  ghost function Reported(ms: seq<MatchResult>, class_: set<string>): int {
    if ms == [] then 0
    else
      var n := |ms| - 1;
      Reported(ms[..n], class_) + if {ms[n].input, ms[n].output} == class_ then ms[n].amount else 0
  }

  ghost function Pairs(cs: seq<Crossing>): seq<(Intent, Intent)> {
    seq(|cs|, k requires 0 <= k < |cs| => (cs[k].a, cs[k].b))
  }

  lemma {:induction false} TotalSnoc(ps: seq<(Intent, Intent)>, p: (Intent, Intent))
    ensures Total(ps + [p]) == Total(ps) + PairAmount(p)
  {
    TotalRemove(ps + [p], |ps|);
    assert Remove(ps + [p], |ps|) == ps;
  }

  lemma {:induction false} ReportedIsTotal(cs: seq<Crossing>, class_: set<string>)
    requires forall c | c in cs :: c.input == c.a.input && c.output == c.a.output
    ensures Reported(RenderAll(cs), class_) == Total(Pairs(Between(cs, class_)))
  {
    if cs != [] {
      var n := |cs| - 1;
      ReportedIsTotal(cs[..n], class_);
      assert RenderAll(cs)[..n] == RenderAll(cs[..n]);
      var before := Between(cs[..n], class_);
      TotalSnoc(Pairs(before), (cs[n].a, cs[n].b));
      assert Pairs(before + [cs[n]]) == Pairs(before) + [(cs[n].a, cs[n].b)];
      assert {RenderAll(cs)[n].input, RenderAll(cs)[n].output} == Class(cs[n].a);
    }
  }

  lemma {:induction false} SumSymmetric(a: seq<Intent>, b: seq<Intent>)
    requires |a| == |b|
    ensures SumOf(a, b) == SumOf(b, a)
  {
    if a != [] {
      SumStep(a, b);
      SumStep(b, a);
      SumSymmetric(a[1..], b[1..]);
    }
  }

  lemma {:induction false} ZippedTotal(a: seq<Intent>, b: seq<Intent>, x: string, y: string)
    requires |b| <= |a|
    ensures Total(Pairs(Zipped(a, b, x, y))) == SumOf(a[..|b|], b)
    ensures Total(Pairs(Zipped(b, a, x, y))) == SumOf(a[..|b|], b)
  {
    assert Pairs(Zipped(a, b, x, y)) == Zip(a[..|b|], b) && Pairs(Zipped(b, a, x, y)) == Zip(b, a[..|b|]);
    SumSymmetric(b, a[..|b|]);
  }

  /** What the matcher reports between two assets: the smallest amounts of the longer direction with all
      of the shorter, in ascending order. */
  lemma {:induction false} ReportedSum(sort: Sorter, intents: seq<Intent>, x: string, y: string)
    requires Clear(sort, intents, x, y) && x != y
    requires |InOrder(sort, intents, y, x)| <= |InOrder(sort, intents, x, y)|
    ensures var a, b := InOrder(sort, intents, x, y), InOrder(sort, intents, y, x);
            Reported(RenderAll(Matching(sort, intents)), {x, y}) == SumOf(a[..|b|], b)
  {
    var a, b, cs := InOrder(sort, intents, x, y), InOrder(sort, intents, y, x), Matching(sort, intents);
    MatchingSound(sort, intents);
    ReportedIsTotal(cs, {x, y});
    ZippedTotal(a, b, x, y);
    ZippedTotal(a, b, y, x);
    if i: Intent :| i in intents && Class(i) == {x, y} {
      ClassOf(i, x, y);
      var k := FirstOf(intents, i);
      ClassOf(intents[k], x, y);
      forall j | 0 <= j < k
        ensures !(intents[j].input == intents[k].output && intents[j].output == intents[k].input)
      {
        ClassOf(intents[j], x, y);
      }
      CrossesInOrder(sort, intents, k);
      assert {x, y} == {y, x};
    } else {
      NoneBetween(sort, intents, x, y);
    }
  }

  lemma {:induction false} NoneBetween(sort: Sorter, intents: seq<Intent>, x: string, y: string)
    requires Clear(sort, intents, x, y) && forall i | i in intents :: Class(i) != {x, y}
    ensures Between(Matching(sort, intents), {x, y}) == [] && InOrder(sort, intents, y, x) == []
  {
    MatchingDisjoint(sort, intents);
    BetweenNone(Matching(sort, intents), {x, y});
    var b := InOrder(sort, intents, y, x);
    if b != [] {
      InOrderMembers(sort, intents, y, x, b[0]);
      ClassOf(b[0], x, y);
    }
  }

  // ---------- when the volume is the largest possible ----------

  /** What is reported between two assets is at least the total of every pairing of the shorter direction
      with intents of the longer. */
  ghost predicate VolumeIsLargest(sort: Sorter, intents: seq<Intent>, x: string, y: string) {
    forall ps | Pairing(ps, Group(intents, JoinKey(x, y)), Group(intents, JoinKey(y, x))) ::
      Total(ps) <= Reported(RenderAll(Matching(sort, intents)), {x, y})
  }

  /** At every place of the ascending orders the amount of the longer direction covers that of the shorter,
      or no larger one stands as many places further as it is longer. */
  ghost predicate Covers(longer: seq<Intent>, shorter: seq<Intent>)
    requires |shorter| <= |longer|
  {
    forall k | 0 <= k < |shorter| ::
      || shorter[k].amount <= longer[k].amount
      || longer[k].amount == longer[|longer| - |shorter| + k].amount
  }

  /** The exact condition: the volume is the largest possible iff the longer direction covers the shorter. */
  lemma {:induction false} VolumeLargestIff(sort: Sorter, intents: seq<Intent>, x: string, y: string)
    requires Clear(sort, intents, x, y) && x != y
    requires |InOrder(sort, intents, y, x)| <= |InOrder(sort, intents, x, y)|
    ensures VolumeIsLargest(sort, intents, x, y) <==>
              Covers(InOrder(sort, intents, x, y), InOrder(sort, intents, y, x))
  {
    var a, b := InOrder(sort, intents, x, y), InOrder(sort, intents, y, x);
    var g, r := Group(intents, JoinKey(x, y)), Group(intents, JoinKey(y, x));
    InOrderSorts(sort, intents, x, y);
    InOrderSorts(sort, intents, y, x);
    ReportedSum(sort, intents, x, y);
    var low, high := a[..|b|], a[|a| - |b|..];
    SumMonotone(low, high, b);
    assert Covers(a, b) <==> SumOf(low, b) == SumOf(high, b);
    LastIsPairing(a, b, g, r);
    forall ps | Pairing(ps, g, r) ensures Total(ps) <= SumOf(high, b) { LargestIsBest(sort, ps, a, b); }
  }

  lemma {:induction false} BalancedIsLargest(sort: Sorter, intents: seq<Intent>, x: string, y: string)
    requires Clear(sort, intents, x, y) && x != y
    requires |Group(intents, JoinKey(x, y))| == |Group(intents, JoinKey(y, x))|
    ensures VolumeIsLargest(sort, intents, x, y)
  {
    InOrderSorts(sort, intents, x, y);
    InOrderSorts(sort, intents, y, x);
    CoversEqual(InOrder(sort, intents, x, y), InOrder(sort, intents, y, x));
    VolumeLargestIff(sort, intents, x, y);
  }

  lemma {:induction false} CoversEqual(a: seq<Intent>, b: seq<Intent>)
    requires |a| == |b|
    ensures Covers(a, b)
  {
  }

  /** With equally many intents in both directions the volume is always the largest possible. */
  lemma {:induction false} VolumeOptimal(
    sort: Sorter, intents: seq<Intent>, x: string, y: string, ps: seq<(Intent, Intent)>)
    requires Clear(sort, intents, x, y) && x != y
    requires |Group(intents, JoinKey(x, y))| == |Group(intents, JoinKey(y, x))|
    requires OneToOne(ps, Group(intents, JoinKey(x, y)), Group(intents, JoinKey(y, x)))
    ensures Total(ps) <= Reported(RenderAll(Matching(sort, intents)), {x, y})
  {
    BalancedIsLargest(sort, intents, x, y);
  }

  lemma {:induction false} SortTwo(sort: Sorter, i: Intent, j: Intent)
    requires SortsByAmount(sort) && i.amount < j.amount
    ensures sort([i, j]) == [i, j]
  {
    var s := sort([i, j]);
    assert multiset(s) == multiset([i, j]) && Ascending(s);
    assert |multiset(s)| == 2 && i in multiset(s) && j in multiset(s);
    assert i in s && j in s;
    assert s == [s[0], s[1]];
  }

  lemma {:induction false} GroupThree(i: Intent, j: Intent, k: Intent, key: string)
    ensures Group([i, j, k], key) == Group([i, j], key) + (if Key(k) == key then [k] else [])
  {
    GroupSnoc([i, j, k], 2, key);
    assert [i, j, k][..3] == [i, j, k] && [i, j, k][..2] == [i, j];
  }

  lemma {:induction false} TwoAgainstOne(sort: Sorter, i: Intent, j: Intent, k: Intent, x: string, y: string)
    requires SortsByAmount(sort) && i.amount < j.amount && JoinKey(x, y) != JoinKey(y, x)
    requires Key(i) == Key(j) == JoinKey(x, y) && Key(k) == JoinKey(y, x)
    ensures InOrder(sort, [i, j, k], x, y) == [i, j] && InOrder(sort, [i, j, k], y, x) == [k]
  {
    GroupThree(i, j, k, JoinKey(x, y));
    GroupThree(i, j, k, JoinKey(y, x));
    GroupTwo(i, j, JoinKey(x, y));
    GroupTwo(i, j, JoinKey(y, x));
    assert Group([i, j, k], JoinKey(x, y)) == [i, j] && Group([i, j, k], JoinKey(y, x)) == [k];
    SortTwo(sort, i, j);
    SortOne(sort, k);
  }

  /** Two intents one way and one the other: the smaller of the two is taken, although the larger would
      net more. */
  lemma {:induction false} SmallestFirstLosesVolume(sort: Sorter)
    requires SortsByAmount(sort)
    ensures !VolumeIsLargest(sort, [Intent("1", 10, "X", "Y"), Intent("2", 20, "X", "Y"), Intent("3", 15, "Y", "X")],
                             "X", "Y")
  {
    var i, j, k := Intent("1", 10, "X", "Y"), Intent("2", 20, "X", "Y"), Intent("3", 15, "Y", "X");
    assert JoinKey("X", "Y")[0] == 'X' && JoinKey("Y", "X")[0] == 'Y';
    TwoAgainstOne(sort, i, j, k, "X", "Y");
    assert !Covers([i, j], [k]);
    VolumeLargestIff(sort, [i, j, k], "X", "Y");
  }
}
