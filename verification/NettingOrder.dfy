/** Which intents the netting matcher joins: for each asset pair the smallest amounts of both directions,
    in ascending order, and within one asset the neighbours of the ascending order. */
module NettingOrder {
  import opened Netting
  import opened NettingProofs
  import opened Pairings

  /** The crossings of one asset pair, in their order. */
  ghost function Between(cs: seq<Crossing>, class_: set<string>): seq<Crossing> {
    if cs == [] then []
    else
      var n := |cs| - 1;
      if Class(cs[n].a) == class_ then Between(cs[..n], class_) + [cs[n]] else Between(cs[..n], class_)
  }

  ghost function Shorter(a: seq<Intent>, b: seq<Intent>): nat {
    if |a| < |b| then |a| else |b|
  }

  /** The first of one list with the first of the other, and so on, as long as both last. */
  ghost function Zipped(a: seq<Intent>, b: seq<Intent>, input: string, output: string): seq<Crossing> {
    seq(Shorter(a, b), k requires 0 <= k < Shorter(a, b) => Crossing(a[k], b[k], input, output))
  }

  /** The first of the list with the second, the third with the fourth, and so on. */
  ghost function Neighbours(g: seq<Intent>, asset: string): seq<Crossing> {
    seq(|g| / 2, k requires 0 <= k < |g| / 2 => Crossing(g[2 * k], g[2 * k + 1], asset, asset))
  }

  lemma {:induction false} BetweenAppend(cs: seq<Crossing>, ds: seq<Crossing>, class_: set<string>)
    ensures Between(cs + ds, class_) == Between(cs, class_) + Between(ds, class_)
  {
    if ds == [] {
      assert cs + ds == cs;
    } else {
      var n := |ds| - 1;
      BetweenAppend(cs, ds[..n], class_);
      assert (cs + ds)[..|cs + ds| - 1] == cs + ds[..n];
    }
  }

  lemma {:induction false} BetweenAll(cs: seq<Crossing>, class_: set<string>)
    requires forall c | c in cs :: Class(c.a) == class_
    ensures Between(cs, class_) == cs
  {
    if cs != [] {
      BetweenAll(cs[..|cs| - 1], class_);
      assert cs == cs[..|cs| - 1] + [cs[|cs| - 1]];
    }
  }

  lemma {:induction false} BetweenNone(cs: seq<Crossing>, class_: set<string>)
    requires forall c | c in cs :: Class(c.a) != class_
    ensures Between(cs, class_) == []
  {
    if cs != [] { BetweenNone(cs[..|cs| - 1], class_); }
  }

  lemma {:induction false} BetweenMembers(cs: seq<Crossing>, class_: set<string>, c: Crossing)
    ensures c in Between(cs, class_) <==> c in cs && Class(c.a) == class_
  {
    if cs != [] {
      BetweenMembers(cs[..|cs| - 1], class_, c);
      assert cs == cs[..|cs| - 1] + [cs[|cs| - 1]];
    }
  }

  /** Two crossings of an asset pair come in the same order in the list and among those of the pair. */
  lemma {:induction false} BetweenInOrder(cs: seq<Crossing>, class_: set<string>, k: nat, l: nat)
    returns (p: nat, q: nat)
    requires k < l < |cs| && Class(cs[k].a) == class_ && Class(cs[l].a) == class_
    ensures p < q < |Between(cs, class_)| && Between(cs, class_)[p] == cs[k] && Between(cs, class_)[q] == cs[l]
  {
    var n := |cs| - 1;
    if l < n {
      p, q := BetweenInOrder(cs[..n], class_, k, l);
    } else {
      BetweenMembers(cs[..n], class_, cs[k]);
      p :| p < |Between(cs[..n], class_)| && Between(cs[..n], class_)[p] == cs[k];
      q := |Between(cs[..n], class_)|;
    }
  }

  // ---------- the two pointers on lists of unused ids ----------

  /** Ids all different, none of them used from position k on. */
  ghost predicate Unspent(a: seq<Intent>, k: nat, used: set<string>) {
    DistinctIds(a) && forall m | k <= m < |a| :: a[m].id !in used
  }

  ghost predicate Apart(a: seq<Intent>, b: seq<Intent>) {
    forall i, j | 0 <= i < |a| && 0 <= j < |b| :: a[i].id != b[j].id
  }

  lemma {:induction false} NetZips(
    a: seq<Intent>, b: seq<Intent>, k: nat, used: set<string>, input: string, output: string)
    requires k <= Shorter(a, b) && Unspent(a, k, used) && Unspent(b, k, used) && Apart(a, b)
    requires forall m | 0 <= m < k :: a[m].id in used && b[m].id in used
    ensures var (cs, used') := Net(a, b, k, k, used, input, output);
            && cs == Zipped(a, b, input, output)[k..]
            && forall m | 0 <= m < Shorter(a, b) :: a[m].id in used' && b[m].id in used'
    decreases |a| - k
  {
    if k < Shorter(a, b) {
      NetZips(a, b, k + 1, used + {a[k].id, b[k].id}, input, output);
      var z := Zipped(a, b, input, output);
      assert z[k..] == [z[k]] + z[k + 1..];
    }
  }

  /** A list against itself: the pointers stand on one intent again after each pair. */
  lemma {:induction false} NetPairsUp(g: seq<Intent>, k: nat, used: set<string>, asset: string)
    requires 2 * k <= |g| && Unspent(g, 2 * k, used)
    ensures Net(g, g, 2 * k, 2 * k, used, asset, asset).0 == Neighbours(g, asset)[k..]
    decreases |g| - k
  {
    var z := Neighbours(g, asset);
    if 2 * k + 1 < |g| {
      var used1 := used + {g[2 * k].id, g[2 * k + 1].id};
      NetPairsUp(g, k + 1, used1, asset);
      assert z[k..] == [z[k]] + z[k + 1..];
      assert Net(g, g, 2 * k + 1, 2 * k + 2, used1, asset, asset).0 == z[k + 1..];
    }
  }

  lemma {:induction false} NetSpent(
    a: seq<Intent>, b: seq<Intent>, ai: nat, bi: nat, used: set<string>, input: string, output: string)
    requires ai <= |a| && bi <= |b|
    requires (forall i | i in a :: i.id in used) || (forall i | i in b :: i.id in used)
    ensures Net(a, b, ai, bi, used, input, output) == ([], used)
    decreases |a| - ai + |b| - bi
  {
    if ai < |a| && bi < |b| {
      if a[ai].id in used {
        NetSpent(a, b, ai + 1, bi, used, input, output);
      } else {
        NetSpent(a, b, ai, bi + 1, used, input, output);
      }
    }
  }

  // ---------- the groups ----------

  lemma {:induction false} GroupIsDirection(intents: seq<Intent>, x: string, y: string, i: Intent)
    requires BarFree(intents) && NoBar(x) && NoBar(y)
    ensures i in Group(intents, JoinKey(x, y)) <==> i in Direction(intents, x, y)
  {
    if i in intents {
      KeyReadsBack(i.input, i.output);
      KeyReadsBack(x, y);
    }
  }

  lemma {:induction false} GroupDistinct(intents: seq<Intent>, key: string)
    requires DistinctIds(intents)
    ensures DistinctIds(Group(intents, key))
  {
    if intents != [] {
      var n := |intents| - 1;
      GroupDistinct(intents[..n], key);
      var g := Group(intents[..n], key);
      forall i | 0 <= i < |g| ensures g[i].id != intents[n].id {
        assert g[i] in g;
      }
    }
  }

  lemma {:induction false} DistinctByCount(s: seq<Intent>)
    ensures |IdSet(s)| <= |s|
    ensures DistinctIds(s) <==> |IdSet(s)| == |s|
  {
    if s == [] {
      assert IdSet(s) == {};
    } else {
      var t, x := s[..|s| - 1], s[|s| - 1];
      DistinctByCount(t);
      assert s == t + [x];
      assert IdSet(s) == IdSet(t) + {x.id};
      assert x.id in IdSet(t) <==> exists i :: 0 <= i < |t| && t[i].id == x.id;
    }
  }

  /** One direction in ascending order of amount. */
  ghost function InOrder(sort: Sorter, intents: seq<Intent>, x: string, y: string): seq<Intent> {
    sort(Group(intents, JoinKey(x, y)))
  }

  lemma {:induction false} InOrderSorts(sort: Sorter, intents: seq<Intent>, x: string, y: string)
    requires SortsByAmount(sort) && DistinctIds(intents)
    ensures multiset(InOrder(sort, intents, x, y)) == multiset(Group(intents, JoinKey(x, y)))
    ensures Ascending(InOrder(sort, intents, x, y)) && DistinctIds(InOrder(sort, intents, x, y))
    ensures |InOrder(sort, intents, x, y)| == |Group(intents, JoinKey(x, y))|
  {
    var g := Group(intents, JoinKey(x, y));
    assert multiset(sort(g)) == multiset(g) && Ascending(sort(g));
    GroupDistinct(intents, JoinKey(x, y));
    SortKeepsElements(sort, g);
    DistinctByCount(g);
    DistinctByCount(sort(g));
  }

  lemma {:induction false} InOrderMembers(sort: Sorter, intents: seq<Intent>, x: string, y: string, i: Intent)
    requires SortsByAmount(sort) && BarFree(intents) && NoBar(x) && NoBar(y)
    ensures i in InOrder(sort, intents, x, y) <==> i in intents && i.input == x && i.output == y
  {
    SortKeepsElements(sort, Group(intents, JoinKey(x, y)));
    GroupIsDirection(intents, x, y, i);
  }

  lemma {:induction false} DirectionsApart(sort: Sorter, intents: seq<Intent>, x: string, y: string)
    requires SortsByAmount(sort) && DistinctIds(intents) && BarFree(intents) && NoBar(x) && NoBar(y) && x != y
    ensures Apart(InOrder(sort, intents, x, y), InOrder(sort, intents, y, x))
  {
    var a, b := InOrder(sort, intents, x, y), InOrder(sort, intents, y, x);
    forall i, j | 0 <= i < |a| && 0 <= j < |b| ensures a[i].id != b[j].id {
      InOrderMembers(sort, intents, x, y, a[i]);
      InOrderMembers(sort, intents, y, x, b[j]);
      if a[i].id == b[j].id { SameIntent(intents, a[i], b[j]); }
    }
  }

  // ---------- one key ----------

  /** What the lemmas below need of the input and of an asset pair. */
  ghost predicate Clear(sort: Sorter, intents: seq<Intent>, x: string, y: string) {
    SortsByAmount(sort) && DistinctIds(intents) && BarFree(intents) && NoBar(x) && NoBar(y)
  }

  /** All intents of the asset pair are still unused. */
  ghost predicate Untouched(intents: seq<Intent>, x: string, y: string, used: set<string>) {
    forall i | i in intents && Class(i) == {x, y} :: i.id !in used
  }

  /** One direction of the asset pair is used up. */
  ghost predicate Settled(sort: Sorter, intents: seq<Intent>, x: string, y: string, used: set<string>) {
    || (forall i | i in InOrder(sort, intents, x, y) :: i.id in used)
    || (forall i | i in InOrder(sort, intents, y, x) :: i.id in used)
  }

  lemma {:induction false} UntouchedDirection(
    sort: Sorter, intents: seq<Intent>, x: string, y: string, used: set<string>)
    requires Clear(sort, intents, x, y) && Untouched(intents, x, y, used)
    ensures Unspent(InOrder(sort, intents, x, y), 0, used)
    ensures forall i | i in InOrder(sort, intents, x, y) :: Class(i) == {x, y}
  {
    InOrderSorts(sort, intents, x, y);
    forall i | i in InOrder(sort, intents, x, y) ensures Class(i) == {x, y} && i.id !in used {
      InOrderMembers(sort, intents, x, y, i);
      ClassOf(i, x, y);
    }
  }

  lemma {:induction false} KeyZips(sort: Sorter, intents: seq<Intent>, x: string, y: string, used: set<string>)
    requires Clear(sort, intents, x, y) && x != y && Untouched(intents, x, y, used)
    ensures var (cs, used'), a, b := NetKey(sort, intents, JoinKey(x, y), used),
                                     InOrder(sort, intents, x, y), InOrder(sort, intents, y, x);
            Between(cs, {x, y}) == Zipped(a, b, x, y) && Settled(sort, intents, x, y, used')
  {
    var a, b := InOrder(sort, intents, x, y), InOrder(sort, intents, y, x);
    KeyReadsBack(x, y);
    UntouchedDirection(sort, intents, x, y, used);
    assert {x, y} == {y, x};
    UntouchedDirection(sort, intents, y, x, used);
    DirectionsApart(sort, intents, x, y);
    NetZips(a, b, 0, used, x, y);
    assert Zipped(a, b, x, y)[0..] == Zipped(a, b, x, y);
    InOrderSorts(sort, intents, y, x);
    BetweenAll(Zipped(a, b, x, y), {x, y});
  }

  lemma {:induction false} KeyPairsUp(sort: Sorter, intents: seq<Intent>, x: string, used: set<string>)
    requires Clear(sort, intents, x, x) && Untouched(intents, x, x, used)
    ensures Between(NetKey(sort, intents, JoinKey(x, x), used).0, {x}) == Neighbours(InOrder(sort, intents, x, x), x)
  {
    var g := InOrder(sort, intents, x, x);
    KeyReadsBack(x, x);
    UntouchedDirection(sort, intents, x, x, used);
    NetPairsUp(g, 0, used, x);
    assert Neighbours(g, x)[0..] == Neighbours(g, x);
    InOrderSorts(sort, intents, x, x);
    BetweenAll(Neighbours(g, x), {x});
  }

  lemma {:induction false} KeySettled(sort: Sorter, intents: seq<Intent>, x: string, y: string, used: set<string>)
    requires Clear(sort, intents, x, y) && Settled(sort, intents, x, y, used)
    ensures NetKey(sort, intents, JoinKey(x, y), used) == ([], used)
  {
    KeyReadsBack(x, y);
    NetSpent(InOrder(sort, intents, x, y), InOrder(sort, intents, y, x), 0, 0, used, x, y);
  }

  /** Another asset pair's key leaves this one alone. */
  lemma {:induction false} OtherKey(
    sort: Sorter, intents: seq<Intent>, x: string, y: string, key: string, used: set<string>)
    requires Clear(sort, intents, x, y) && key != JoinKey(x, y) && key != JoinKey(y, x)
    ensures Untouched(intents, x, y, used) ==> Untouched(intents, x, y, NetKey(sort, intents, key, used).1)
    ensures Between(NetKey(sort, intents, key, used).0, {x, y}) == []
  {
    var (cs, used') := NetKey(sort, intents, key, used);
    NetKeyExtends(sort, intents, key, used);
    forall c | c in cs ensures Class(c.a) != {x, y} && Class(c.b) != {x, y} {
      KeyOfBarFree(c.a);
      KeyReadsBack(c.a.output, c.a.input);
      KeyReadsBack(c.b.input, c.b.output);
      assert c.b.input == c.a.output && c.b.output == c.a.input;
      ClassOf(c.a, x, y);
      ClassOf(c.b, x, y);
    }
    BetweenNone(cs, {x, y});
    forall i | i in intents && Class(i) == {x, y} && i.id in used' ensures i.id in used {
      if i.id in Ids(cs) {
        var c :| c in cs && (c.a.id == i.id || c.b.id == i.id);
        if c.a.id == i.id { SameIntent(intents, c.a, i); } else { SameIntent(intents, c.b, i); }
      }
    }
  }

  // ---------- all keys ----------

  lemma {:induction false} KeysSettled(
    sort: Sorter, intents: seq<Intent>, x: string, y: string, keys: seq<string>, used: set<string>)
    requires Clear(sort, intents, x, y) && Settled(sort, intents, x, y, used)
    ensures Between(NetKeys(sort, intents, keys, used).0, {x, y}) == []
  {
    if keys != [] {
      var (here, used1) := NetKey(sort, intents, keys[0], used);
      NetKeyExtends(sort, intents, keys[0], used);
      KeysSettled(sort, intents, x, y, keys[1..], used1);
      BetweenAppend(here, NetKeys(sort, intents, keys[1..], used1).0, {x, y});
      if keys[0] == JoinKey(x, y) {
        KeySettled(sort, intents, x, y, used);
      } else if keys[0] == JoinKey(y, x) {
        KeySettled(sort, intents, y, x, used);
      } else {
        OtherKey(sort, intents, x, y, keys[0], used);
      }
    }
  }

  /** The key comes in the list, and not behind the other. */
  ghost predicate Leads(keys: seq<string>, key: string, other: string) {
    keys != [] && (keys[0] == key || (keys[0] != other && Leads(keys[1..], key, other)))
  }

  lemma {:induction false} KeysZip(
    sort: Sorter, intents: seq<Intent>, x: string, y: string, keys: seq<string>, used: set<string>)
    requires Clear(sort, intents, x, y) && x != y && Untouched(intents, x, y, used)
    requires Leads(keys, JoinKey(x, y), JoinKey(y, x))
    ensures Between(NetKeys(sort, intents, keys, used).0, {x, y})
         == Zipped(InOrder(sort, intents, x, y), InOrder(sort, intents, y, x), x, y)
  {
    var (here, used1) := NetKey(sort, intents, keys[0], used);
    BetweenAppend(here, NetKeys(sort, intents, keys[1..], used1).0, {x, y});
    if keys[0] == JoinKey(x, y) {
      KeyZips(sort, intents, x, y, used);
      KeysSettled(sort, intents, x, y, keys[1..], used1);
    } else {
      OtherKey(sort, intents, x, y, keys[0], used);
      KeysZip(sort, intents, x, y, keys[1..], used1);
    }
  }

  lemma {:induction false} KeysPairUp(
    sort: Sorter, intents: seq<Intent>, x: string, keys: seq<string>, used: set<string>)
    requires Clear(sort, intents, x, x) && Untouched(intents, x, x, used) && JoinKey(x, x) in keys
    requires forall i, j | 0 <= i < j < |keys| :: keys[i] != keys[j]
    ensures Between(NetKeys(sort, intents, keys, used).0, {x}) == Neighbours(InOrder(sort, intents, x, x), x)
  {
    var (here, used1) := NetKey(sort, intents, keys[0], used);
    BetweenAppend(here, NetKeys(sort, intents, keys[1..], used1).0, {x});
    assert {x} == {x, x};
    if keys[0] == JoinKey(x, x) {
      KeyPairsUp(sort, intents, x, used);
      AssetDone(sort, intents, x, keys[1..], used1);
    } else {
      OtherKey(sort, intents, x, x, keys[0], used);
      KeysPairUp(sort, intents, x, keys[1..], used1);
    }
  }

  lemma {:induction false} AssetDone(
    sort: Sorter, intents: seq<Intent>, x: string, keys: seq<string>, used: set<string>)
    requires Clear(sort, intents, x, x) && JoinKey(x, x) !in keys
    ensures Between(NetKeys(sort, intents, keys, used).0, {x}) == []
  {
    if keys != [] {
      var (here, used1) := NetKey(sort, intents, keys[0], used);
      AssetDone(sort, intents, x, keys[1..], used1);
      BetweenAppend(here, NetKeys(sort, intents, keys[1..], used1).0, {x});
      assert {x} == {x, x};
      OtherKey(sort, intents, x, x, keys[0], used);
    }
  }

  lemma {:induction false} LeadsStill(keys: seq<string>, key: string, other: string, last: string)
    requires Leads(keys, key, other)
    ensures Leads(keys + [last], key, other)
  {
    if keys[0] != key {
      LeadsStill(keys[1..], key, other, last);
      assert (keys + [last])[1..] == keys[1..] + [last];
    }
  }

  lemma {:induction false} LeadsAlone(keys: seq<string>, key: string, other: string)
    requires key in keys && other !in keys
    ensures Leads(keys, key, other)
  {
    if keys[0] != key { LeadsAlone(keys[1..], key, other); }
  }

  /** Keys come in order of their first intent. */
  lemma {:induction false} FirstSeenLeads(intents: seq<Intent>, k: nat, other: string)
    requires k < |intents| && Key(intents[k]) != other && forall j | 0 <= j < k :: Key(intents[j]) != other
    ensures Leads(Keys(intents), Key(intents[k]), other)
  {
    var n := |intents| - 1;
    if k < n {
      FirstSeenLeads(intents[..n], k, other);
      LeadsStill(Keys(intents[..n]), Key(intents[k]), other, Key(intents[n]));
    } else {
      KeysAreSeen(intents, other);
      LeadsAlone(Keys(intents), Key(intents[n]), other);
    }
  }

  lemma {:induction false} KeysAreSeen(intents: seq<Intent>, key: string)
    requires forall j | 0 <= j < |intents| :: Key(intents[j]) != key
    ensures key !in Keys(intents)
  {
    if intents != [] { KeysAreSeen(intents[..|intents| - 1], key); }
  }

  // ---------- the matching ----------

  /** The crossings between two assets: the ascending amounts of one direction with those of the other,
      place by place, as long as both last; the direction seen first comes first. */
  lemma {:induction false} CrossesInOrder(sort: Sorter, intents: seq<Intent>, k: nat)
    requires SortsByAmount(sort) && DistinctIds(intents) && BarFree(intents)
    requires k < |intents| && intents[k].input != intents[k].output
    requires forall j | 0 <= j < k :: !(intents[j].input == intents[k].output && intents[j].output == intents[k].input)
    ensures var x, y := intents[k].input, intents[k].output;
            Between(Matching(sort, intents), {x, y})
              == Zipped(InOrder(sort, intents, x, y), InOrder(sort, intents, y, x), x, y)
  {
    var x, y := intents[k].input, intents[k].output;
    assert intents[k] in intents;
    KeyReadsBack(x, y);
    KeyReadsBack(y, x);
    forall j | 0 <= j < k ensures Key(intents[j]) != JoinKey(y, x) {
      assert intents[j] in intents;
      KeyReadsBack(intents[j].input, intents[j].output);
    }
    FirstSeenLeads(intents, k, JoinKey(y, x));
    KeysZip(sort, intents, x, y, Keys(intents), {});
  }

  /** The crossings within one asset: neighbours in the ascending order of amounts. */
  lemma {:induction false} NeighboursCross(sort: Sorter, intents: seq<Intent>, x: string)
    requires SortsByAmount(sort) && DistinctIds(intents) && BarFree(intents) && NoBar(x)
    ensures Between(Matching(sort, intents), {x}) == Neighbours(InOrder(sort, intents, x, x), x)
  {
    KeysComplete(intents);
    var g := Group(intents, JoinKey(x, x));
    if g == [] {
      AssetDone(sort, intents, x, Keys(intents), {});
      SortKeepsElements(sort, g);
    } else {
      KeysPairUp(sort, intents, x, Keys(intents), {});
    }
  }

  /** The first intent of an asset pair. */
  lemma {:induction false} FirstOf(intents: seq<Intent>, i: Intent) returns (k: nat)
    requires i in intents
    ensures k < |intents| && Class(intents[k]) == Class(i) && forall j | 0 <= j < k :: Class(intents[j]) != Class(i)
  {
    var n := |intents| - 1;
    if j: Intent :| j in intents[..n] && Class(j) == Class(i) {
      k := FirstOf(intents[..n], j);
    } else {
      assert intents == intents[..n] + [intents[n]];
      k := n;
      forall j | 0 <= j < k ensures Class(intents[j]) != Class(i) { assert intents[j] in intents[..n]; }
    }
  }

  /** Two lists the crossings of an asset pair take their two sides from, in ascending order. */
  ghost predicate Sides(sort: Sorter, intents: seq<Intent>, class_: set<string>, a: seq<Intent>, b: seq<Intent>) {
    var cs := Between(Matching(sort, intents), class_);
    && |cs| <= |a| && |cs| <= |b|
    && (forall k | 0 <= k < |cs| :: cs[k].a == a[k] && cs[k].b == b[k])
    && Ascending(a) && Ascending(b)
  }

  lemma {:induction false} SidesOfCross(sort: Sorter, intents: seq<Intent>, i: Intent) returns (x: string, y: string)
    requires SortsByAmount(sort) && DistinctIds(intents) && BarFree(intents)
    requires i in intents && i.input != i.output
    ensures (i.input, i.output) in {(x, y), (y, x)} && NoBar(x) && NoBar(y) && x != y
    ensures var a, b := InOrder(sort, intents, x, y), InOrder(sort, intents, y, x);
            Sides(sort, intents, Class(i), a, b) && |Between(Matching(sort, intents), Class(i))| == Shorter(a, b)
  {
    var k := FirstOf(intents, i);
    x, y := intents[k].input, intents[k].output;
    ClassOf(intents[k], i.input, i.output);
    forall j | 0 <= j < k ensures !(intents[j].input == y && intents[j].output == x) { ClassOf(intents[j], x, y); }
    CrossesInOrder(sort, intents, k);
    InOrderSorts(sort, intents, x, y);
    InOrderSorts(sort, intents, y, x);
  }

  /** Every second of the ascending order, from the first or from the second on. */
  ghost function Alternate(g: seq<Intent>, from: nat): seq<Intent>
    requires from <= 1
  {
    seq(|g| / 2, k requires 0 <= k < |g| / 2 => g[2 * k + from])
  }

  lemma {:induction false} SidesWithin(sort: Sorter, intents: seq<Intent>, x: string)
    requires SortsByAmount(sort) && DistinctIds(intents) && BarFree(intents) && NoBar(x)
    ensures var g := InOrder(sort, intents, x, x); Sides(sort, intents, {x}, Alternate(g, 0), Alternate(g, 1))
  {
    NeighboursCross(sort, intents, x);
    InOrderSorts(sort, intents, x, x);
  }

  lemma {:induction false} SidesAscend(
    sort: Sorter, intents: seq<Intent>, class_: set<string>, a: seq<Intent>, b: seq<Intent>, p: nat, q: nat)
    requires Sides(sort, intents, class_, a, b) && p < q < |Between(Matching(sort, intents), class_)|
    ensures var cs := Between(Matching(sort, intents), class_);
            cs[p].a == a[p] && cs[q].a == a[q] && cs[p].a.amount <= cs[q].a.amount && cs[p].b.amount <= cs[q].b.amount
  {
  }

  /** Crossings of one asset pair come in ascending order of amount, on both sides. */
  lemma {:induction false} AscendingOnBothSides(sort: Sorter, intents: seq<Intent>, k: nat, l: nat)
    requires SortsByAmount(sort) && DistinctIds(intents) && BarFree(intents)
    requires var cs := Matching(sort, intents); k < l < |cs| && Class(cs[k].a) == Class(cs[l].a)
    ensures var c, d := Matching(sort, intents)[k], Matching(sort, intents)[l];
            && c.a.amount <= d.a.amount && c.b.amount <= d.b.amount
            && c.a.input == d.a.input && c.a.output == d.a.output
  {
    var cs := Matching(sort, intents);
    MatchingDisjoint(sort, intents);
    assert cs[k] in cs && cs[l] in cs;
    var p, q := BetweenInOrder(cs, Class(cs[k].a), k, l);
    if cs[k].a.input == cs[k].a.output {
      var x := cs[k].a.input;
      var g := InOrder(sort, intents, x, x);
      assert {x} == {x, x};
      SidesWithin(sort, intents, x);
      SidesAscend(sort, intents, {x}, Alternate(g, 0), Alternate(g, 1), p, q);
      ClassOf(cs[l].a, x, x);
    } else {
      var x, y := SidesOfCross(sort, intents, cs[k].a);
      var a := InOrder(sort, intents, x, y);
      SidesAscend(sort, intents, Class(cs[k].a), a, InOrder(sort, intents, y, x), p, q);
      InOrderMembers(sort, intents, x, y, cs[k].a);
      InOrderMembers(sort, intents, x, y, cs[l].a);
    }
  }

  // ---------- smallest first ----------

  ghost predicate Matched(cs: seq<Crossing>, i: Intent) {
    exists c :: c in cs && (c.a == i || c.b == i)
  }

  /** A matched intent stands in its direction's order before the length of the shorter direction. */
  lemma {:induction false} MatchedPlace(sort: Sorter, intents: seq<Intent>, i: Intent) returns (k: nat)
    requires SortsByAmount(sort) && DistinctIds(intents) && BarFree(intents)
    requires i in intents && i.input != i.output && Matched(Matching(sort, intents), i)
    ensures var a, b := InOrder(sort, intents, i.input, i.output), InOrder(sort, intents, i.output, i.input);
            k < Shorter(a, b) && a[k] == i
  {
    var cs := Matching(sort, intents);
    var c :| c in cs && (c.a == i || c.b == i);
    MatchingSound(sort, intents);
    ClassOf(c.a, i.input, i.output);
    BetweenMembers(cs, Class(i), c);
    var x, y := SidesOfCross(sort, intents, i);
    var p :| 0 <= p < |Between(cs, Class(i))| && Between(cs, Class(i))[p] == c;
    InOrderMembers(sort, intents, x, y, c.a);
    InOrderMembers(sort, intents, y, x, c.b);
    k := p;
  }

  lemma {:induction false} PlaceIsMatched(sort: Sorter, intents: seq<Intent>, i: Intent, k: nat)
    requires SortsByAmount(sort) && DistinctIds(intents) && BarFree(intents)
    requires i in intents && i.input != i.output
    requires var a, b := InOrder(sort, intents, i.input, i.output), InOrder(sort, intents, i.output, i.input);
             k < Shorter(a, b) && a[k] == i
    ensures Matched(Matching(sort, intents), i)
  {
    var cs := Matching(sort, intents);
    var x, y := SidesOfCross(sort, intents, i);
    var c := Between(cs, Class(i))[k];
    BetweenMembers(cs, Class(i), c);
  }

  /** The smaller amounts of a direction are matched first: an intent that is matched is at most as large
      as every unmatched one of its direction. */
  lemma {:induction false} SmallestFirst(sort: Sorter, intents: seq<Intent>, i: Intent, j: Intent)
    requires SortsByAmount(sort) && DistinctIds(intents) && BarFree(intents)
    requires i in intents && j in intents && i.input == j.input && i.output == j.output
    requires Matched(Matching(sort, intents), i) && !Matched(Matching(sort, intents), j)
    ensures i.amount <= j.amount
  {
    var x, y := i.input, i.output;
    var a := InOrder(sort, intents, x, y);
    InOrderSorts(sort, intents, x, y);
    InOrderMembers(sort, intents, x, y, j);
    if x == y {
      SmallestWithin(sort, intents, i, j);
    } else {
      var k := MatchedPlace(sort, intents, i);
      var l :| 0 <= l < |a| && a[l] == j;
      if l < Shorter(a, InOrder(sort, intents, y, x)) { PlaceIsMatched(sort, intents, j, l); }
    }
  }

  /** Of one asset's intents all but a last odd one are matched. */
  lemma {:induction false} NeighbourIsMatched(sort: Sorter, intents: seq<Intent>, x: string, l: nat)
    requires SortsByAmount(sort) && DistinctIds(intents) && BarFree(intents) && NoBar(x)
    requires var g := InOrder(sort, intents, x, x); l / 2 < |g| / 2
    ensures Matched(Matching(sort, intents), InOrder(sort, intents, x, x)[l])
  {
    var cs, g := Matching(sort, intents), InOrder(sort, intents, x, x);
    var k := l / 2;
    NeighboursCross(sort, intents, x);
    var c := Neighbours(g, x)[k];
    assert l == 2 * k || l == 2 * k + 1;
    BetweenMembers(cs, {x}, c);
  }

  lemma {:induction false} HalfBelow(l: nat, n: nat)
    requires l < n - 1
    ensures l / 2 < n / 2
  {
  }

  lemma {:induction false} SmallestWithin(sort: Sorter, intents: seq<Intent>, i: Intent, j: Intent)
    requires SortsByAmount(sort) && DistinctIds(intents) && BarFree(intents)
    requires i in intents && j in intents && i.input == i.output == j.input == j.output
    requires !Matched(Matching(sort, intents), j)
    ensures i.amount <= j.amount
  {
    var x := i.input;
    var g := InOrder(sort, intents, x, x);
    InOrderSorts(sort, intents, x, x);
    InOrderMembers(sort, intents, x, x, i);
    InOrderMembers(sort, intents, x, x, j);
    var k :| 0 <= k < |g| && g[k] == i;
    var l :| 0 <= l < |g| && g[l] == j;
    if l < |g| - 1 {
      HalfBelow(l, |g|);
      NeighbourIsMatched(sort, intents, x, l);
    }
  }

  // ---------- the order of asset pairs ----------

  lemma {:induction false} KeyOfCrossing(sort: Sorter, intents: seq<Intent>, key: string, used: set<string>, k: nat)
    requires SortsByAmount(sort) && k < |NetKey(sort, intents, key, used).0|
    ensures Key(NetKey(sort, intents, key, used).0[k].a) == key
  {
    var cs := NetKey(sort, intents, key, used).0;
    NetKeyExtends(sort, intents, key, used);
    assert cs[k] in cs;
  }

  lemma {:induction false} KeyIsThere(
    sort: Sorter, intents: seq<Intent>, keys: seq<string>, used: set<string>, k: nat) returns (p: nat)
    requires SortsByAmount(sort) && k < |NetKeys(sort, intents, keys, used).0|
    ensures p < |keys| && keys[p] == Key(NetKeys(sort, intents, keys, used).0[k].a)
  {
    var cs := NetKeys(sort, intents, keys, used).0;
    NetKeysExtends(sort, intents, keys, used);
    assert cs[k] in cs;
    p :| p < |keys| && keys[p] == Key(cs[k].a);
  }

  lemma {:induction false} NetKeysAt(
    sort: Sorter, intents: seq<Intent>, keys: seq<string>, used: set<string>, k: nat)
    requires keys != [] && k < |NetKeys(sort, intents, keys, used).0|
    ensures var here := NetKey(sort, intents, keys[0], used);
            NetKeys(sort, intents, keys, used).0[k]
              == if k < |here.0| then here.0[k] else NetKeys(sort, intents, keys[1..], here.1).0[k - |here.0|]
  {
  }

  lemma {:induction false} KeysInOrder(
    sort: Sorter, intents: seq<Intent>, keys: seq<string>, used: set<string>, k: nat, l: nat) returns (p: nat, q: nat)
    requires SortsByAmount(sort) && k < l < |NetKeys(sort, intents, keys, used).0|
    ensures p <= q < |keys| && keys[p] == Key(NetKeys(sort, intents, keys, used).0[k].a)
    ensures keys[q] == Key(NetKeys(sort, intents, keys, used).0[l].a)
  {
    var here := NetKey(sort, intents, keys[0], used);
    var n := |here.0|;
    NetKeysAt(sort, intents, keys, used, k);
    NetKeysAt(sort, intents, keys, used, l);
    if k >= n {
      var p', q' := KeysInOrder(sort, intents, keys[1..], here.1, k - n, l - n);
      p, q := p' + 1, q' + 1;
    } else {
      KeyOfCrossing(sort, intents, keys[0], used, k);
      p, q := 0, 0;
      if l >= n {
        var q' := KeyIsThere(sort, intents, keys[1..], here.1, l - n);
        q := q' + 1;
      } else {
        KeyOfCrossing(sort, intents, keys[0], used, l);
      }
    }
  }

  lemma {:induction false} KeySeenFirst(intents: seq<Intent>, p: nat, q: nat) returns (m: nat)
    requires p < q < |Keys(intents)|
    ensures m < |intents| && Key(intents[m]) == Keys(intents)[p]
    ensures forall j | 0 <= j <= m :: Key(intents[j]) != Keys(intents)[q]
  {
    var n := |intents| - 1;
    var ks := Keys(intents[..n]);
    if q < |ks| {
      m := KeySeenFirst(intents[..n], p, q);
    } else {
      KeysComplete(intents[..n]);
      assert ks[p] in ks;
      var i := Group(intents[..n], ks[p])[0];
      assert i in Group(intents[..n], ks[p]);
      m :| 0 <= m < n && intents[..n][m] == i;
      forall j | 0 <= j <= m ensures Key(intents[j]) != Keys(intents)[q] {
        assert intents[j] in Group(intents[..n], Key(intents[j]));
      }
    }
  }

  /** Crossings come in the order in which the directions of their first sides are first seen, whatever
      the asset names. */
  lemma {:induction false} DirectionsInOrder(sort: Sorter, intents: seq<Intent>, k: nat, l: nat) returns (m: nat)
    requires SortsByAmount(sort) && k < l < |Matching(sort, intents)|
    requires Key(Matching(sort, intents)[k].a) != Key(Matching(sort, intents)[l].a)
    ensures m < |intents| && Key(intents[m]) == Key(Matching(sort, intents)[k].a)
    ensures forall j | 0 <= j <= m :: Key(intents[j]) != Key(Matching(sort, intents)[l].a)
  {
    var p, q := KeysInOrder(sort, intents, Keys(intents), {}, k, l);
    m := KeySeenFirst(intents, p, q);
  }
}
