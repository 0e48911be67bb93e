/** What the netting matcher guarantees: disjoint pairs, as many as any family of disjoint complementary
    pairs, and sound ones exactly where no bar in an asset name confuses the grouping key. */
module NettingProofs {
  import opened Netting
  import opened Pairings

  ghost predicate DistinctIds(intents: seq<Intent>) {
    forall i, j | 0 <= i < j < |intents| :: intents[i].id != intents[j].id
  }

  predicate NoBar(s: string) {
    '|' !in s
  }

  ghost predicate BarFree(intents: seq<Intent>) {
    forall i | i in intents :: NoBar(i.input) && NoBar(i.output)
  }

  /** Opposite directions of one asset pair, and two different intents. */
  predicate Complementary(i: Intent, j: Intent) {
    i.input == j.output && i.output == j.input && i.id != j.id
  }

  ghost function Ids(cs: seq<Crossing>): set<string> {
    (set c | c in cs :: c.a.id) + (set c | c in cs :: c.b.id)
  }

  // ---------- keys ----------

  lemma {:induction false} SplitWithoutBar(s: string)
    requires NoBar(s)
    ensures Split(s) == [s]
  {
    if s != "" {
      SplitWithoutBar(s[1..]);
      assert [s[0]] + s[1..] == s;
    }
  }

  lemma {:induction false} SplitJoin(s: string, t: string)
    requires NoBar(s)
    ensures Split(JoinKey(s, t)) == [s] + Split(t)
  {
    if s == "" {
      assert JoinKey(s, t)[1..] == t;
    } else {
      SplitJoin(s[1..], t);
      assert JoinKey(s, t)[1..] == JoinKey(s[1..], t);
      assert [s[0]] + s[1..] == s;
    }
  }

  lemma {:induction false} SplitPiecesBarFree(s: string)
    ensures forall p | p in Split(s) :: NoBar(p)
  {
    if s != "" {
      SplitPiecesBarFree(s[1..]);
      var rest := Split(s[1..]);
      assert NoBar(rest[0]);
      forall p | p in Split(s) ensures NoBar(p) {
        assert p in rest || p == "" || (s[0] != '|' && p == [s[0]] + rest[0]);
      }
    }
  }

  /** A key is read back as the pair it was built from exactly when neither asset name has a bar. */
  lemma {:induction false} KeyReadsBack(input: string, output: string)
    ensures Assets(JoinKey(input, output)) == (input, output) <==> NoBar(input) && NoBar(output)
  {
    SplitPiecesBarFree(JoinKey(input, output));
    if NoBar(input) {
      SplitJoin(input, output);
      if NoBar(output) {
        SplitWithoutBar(output);
      }
    }
  }

  lemma {:induction false} KeyOfBarFree(i: Intent)
    requires NoBar(i.input) && NoBar(i.output)
    ensures Assets(Key(i)) == (i.input, i.output)
    ensures ReverseKey(Key(i)) == JoinKey(i.output, i.input)
  {
    KeyReadsBack(i.input, i.output);
  }

  // ---------- what one pass of netting keeps ----------

  /** `cs` was matched from `used` on: fresh, pairwise disjoint ids, all of them used afterwards. */
  ghost predicate Extends(cs: seq<Crossing>, used: set<string>, used': set<string>) {
    && used' == used + Ids(cs)
    && (forall c | c in cs :: c.a.id !in used && c.b.id !in used && c.a.id != c.b.id)
    && (forall i, j | 0 <= i < j < |cs| :: {cs[i].a.id, cs[i].b.id} !! {cs[j].a.id, cs[j].b.id})
  }

  lemma {:induction false} IdsAppend(cs: seq<Crossing>, ds: seq<Crossing>)
    ensures Ids(cs + ds) == Ids(cs) + Ids(ds)
  {
  }

  /** Ids matched later are not among those matched before. */
  lemma {:induction false} LaterIsFresh(c: Crossing, d: Crossing, used': set<string>)
    requires c.a.id in used' && c.b.id in used' && d.a.id !in used' && d.b.id !in used'
    ensures {c.a.id, c.b.id} !! {d.a.id, d.b.id}
  {
  }

  lemma {:induction false} ExtendsAppend(
    cs: seq<Crossing>, ds: seq<Crossing>, used: set<string>, used': set<string>, used'': set<string>)
    requires Extends(cs, used, used') && Extends(ds, used', used'')
    ensures Extends(cs + ds, used, used'')
  {
    IdsAppend(cs, ds);
    var es := cs + ds;
    forall c | c in es ensures c.a.id !in used && c.b.id !in used && c.a.id != c.b.id {
      assert c in cs || c in ds;
    }
    forall i, j | 0 <= i < j < |es| ensures {es[i].a.id, es[i].b.id} !! {es[j].a.id, es[j].b.id} {
      if i < |cs| <= j {
        assert es[i] in cs && es[j] in ds;
        LaterIsFresh(es[i], es[j], used');
      }
    }
  }

  lemma {:induction false} ExtendsOne(c: Crossing, used: set<string>)
    requires c.a.id !in used && c.b.id !in used && c.a.id != c.b.id
    ensures Extends([c], used, used + {c.a.id, c.b.id})
  {
    assert c in [c];
    assert Ids([c]) == {c.a.id, c.b.id};
  }

  lemma {:induction false} NetExtends(
    a: seq<Intent>, b: seq<Intent>, ai: nat, bi: nat, used: set<string>, input: string, output: string)
    requires ai <= |a| && bi <= |b|
    ensures var (cs, used') := Net(a, b, ai, bi, used, input, output);
            && Extends(cs, used, used')
            && forall c | c in cs :: c.a in a && c.b in b && c.input == input && c.output == output
    decreases |a| - ai + |b| - bi
  {
    if ai == |a| || bi == |b| {
    } else if a[ai].id in used {
      NetExtends(a, b, ai + 1, bi, used, input, output);
    } else if b[bi].id in used || a[ai].id == b[bi].id {
      NetExtends(a, b, ai, bi + 1, used, input, output);
    } else {
      var c := Crossing(a[ai], b[bi], input, output);
      var used1 := used + {a[ai].id, b[bi].id};
      NetExtends(a, b, ai + 1, bi + 1, used1, input, output);
      var (cs, used') := Net(a, b, ai + 1, bi + 1, used1, input, output);
      ExtendsOne(c, used);
      ExtendsAppend([c], cs, used, used1, used');
      assert Net(a, b, ai, bi, used, input, output) == ([c] + cs, used');
    }
  }

  /** Either direction is used up, or the two directions are one group with a single intent left. */
  ghost predicate Exhausted(a: seq<Intent>, b: seq<Intent>, used: set<string>) {
    forall x, y | x in a && y in b && x.id != y.id :: x.id in used || y.id in used
  }

  ghost function IdSet(s: seq<Intent>): set<string> {
    set x | x in s :: x.id
  }

  /** Advancing only the side already used, and skipping `b` past the current `a`, loses no pair. */
  lemma {:induction false} NetExhausts(
    a: seq<Intent>, b: seq<Intent>, ai: nat, bi: nat, used: set<string>, input: string, output: string)
    requires ai <= |a| && bi <= |b|
    requires IdSet(a) !! IdSet(b) || IdSet(a) == IdSet(b)
    requires forall k | 0 <= k < ai :: a[k].id in used
    requires forall k | 0 <= k < bi :: b[k].id in used || (ai < |a| && b[k].id == a[ai].id)
    ensures Exhausted(a, b, Net(a, b, ai, bi, used, input, output).1)
    decreases |a| - ai + |b| - bi
  {
    if ai == |a| {
    } else if bi == |b| {
      forall x, y | x in a && y in b && x.id != y.id ensures x.id in used || y.id in used {
        assert y.id in used || y.id == a[ai].id;
        if y.id !in used {
          assert a[ai].id in IdSet(a) && y.id in IdSet(b);
          assert x.id in IdSet(b);
          var k :| 0 <= k < |b| && b[k].id == x.id;
        }
      }
    } else if a[ai].id in used {
      NetExhausts(a, b, ai + 1, bi, used, input, output);
    } else if b[bi].id in used || a[ai].id == b[bi].id {
      NetExhausts(a, b, ai, bi + 1, used, input, output);
    } else {
      NetExhausts(a, b, ai + 1, bi + 1, used + {a[ai].id, b[bi].id}, input, output);
    }
  }

  // ---------- all groups ----------

  lemma {:induction false} SortKeepsElements(sort: Sorter, s: seq<Intent>)
    requires SortsByAmount(sort)
    ensures forall x :: x in sort(s) <==> x in s
    ensures |sort(s)| == |s|
    ensures IdSet(sort(s)) == IdSet(s)
  {
    assert multiset(sort(s)) == multiset(s) && Ascending(sort(s));
    assert |multiset(sort(s))| == |multiset(s)|;
    assert forall x :: x in sort(s) <==> x in multiset(sort(s));
    assert forall x :: x in s <==> x in multiset(s);
  }

  lemma {:induction false} NetKeyExtends(sort: Sorter, intents: seq<Intent>, key: string, used: set<string>)
    requires SortsByAmount(sort)
    ensures var (cs, used') := NetKey(sort, intents, key, used);
            && Extends(cs, used, used')
            && forall c | c in cs :: c.a in Group(intents, key) && c.b in Group(intents, ReverseKey(key))
                                  && (c.input, c.output) == Assets(key)
  {
    var g, r := Group(intents, key), Group(intents, ReverseKey(key));
    SortKeepsElements(sort, g);
    SortKeepsElements(sort, r);
    NetExtends(sort(g), sort(r), 0, 0, used, Assets(key).0, Assets(key).1);
  }

  /** Both intents of a crossing come from the input, and its asset pair from some key. */
  ghost predicate FromKeys(intents: seq<Intent>, keys: seq<string>, c: Crossing) {
    && c.a in intents && c.b in intents && Key(c.a) in keys && Key(c.b) == ReverseKey(Key(c.a))
    && (c.input, c.output) == Assets(Key(c.a))
  }

  lemma {:induction false} NetKeysExtends(sort: Sorter, intents: seq<Intent>, keys: seq<string>, used: set<string>)
    requires SortsByAmount(sort)
    ensures var (cs, used') := NetKeys(sort, intents, keys, used);
            Extends(cs, used, used') && forall c | c in cs :: FromKeys(intents, keys, c)
  {
    if keys != [] {
      NetKeyExtends(sort, intents, keys[0], used);
      var (here, used1) := NetKey(sort, intents, keys[0], used);
      NetKeysExtends(sort, intents, keys[1..], used1);
      var (rest, used2) := NetKeys(sort, intents, keys[1..], used1);
      ExtendsAppend(here, rest, used, used1, used2);
    }
  }

  lemma {:induction false} SameIntent(intents: seq<Intent>, x: Intent, y: Intent)
    requires DistinctIds(intents) && x in intents && y in intents && x.id == y.id
    ensures x == y
  {
  }

  lemma {:induction false} NetKeyExhausts(sort: Sorter, intents: seq<Intent>, x: Intent, y: Intent, used: set<string>)
    requires SortsByAmount(sort) && DistinctIds(intents) && BarFree(intents)
    requires x in intents && y in intents && Complementary(x, y)
    ensures var used' := NetKey(sort, intents, Key(x), used).1; x.id in used' || y.id in used'
  {
    KeyOfBarFree(x);
    var g, r := Group(intents, Key(x)), Group(intents, ReverseKey(Key(x)));
    assert x in g && y in r;
    SortKeepsElements(sort, g);
    SortKeepsElements(sort, r);
    if Key(x) == ReverseKey(Key(x)) {
      assert g == r;
    } else {
      forall i, j | i in g && j in r ensures i.id != j.id {
        if i.id == j.id { SameIntent(intents, i, j); }
      }
      assert IdSet(g) !! IdSet(r);
    }
    NetExhausts(sort(g), sort(r), 0, 0, used, Assets(Key(x)).0, Assets(Key(x)).1);
  }

  lemma {:induction false} NetKeysExhausts(
    sort: Sorter, intents: seq<Intent>, keys: seq<string>, used: set<string>, x: Intent, y: Intent)
    requires SortsByAmount(sort) && DistinctIds(intents) && BarFree(intents)
    requires x in intents && y in intents && Complementary(x, y) && Key(x) in keys
    ensures var used' := NetKeys(sort, intents, keys, used).1; x.id in used' || y.id in used'
  {
    var used1 := NetKey(sort, intents, keys[0], used).1;
    NetKeysExtends(sort, intents, keys[1..], used1);
    if keys[0] == Key(x) {
      NetKeyExhausts(sort, intents, x, y, used);
    } else {
      NetKeysExhausts(sort, intents, keys[1..], used1, x, y);
    }
  }

  // ---------- the result as a family of pairs ----------

  ghost function PairSet(cs: seq<Crossing>): set<(Intent, Intent)> {
    set c | c in cs :: (c.a, c.b)
  }

  ghost predicate DisjointIds(cs: seq<Crossing>) {
    && (forall c | c in cs :: c.a.id != c.b.id)
    && (forall i, j | 0 <= i < j < |cs| :: {cs[i].a.id, cs[i].b.id} !! {cs[j].a.id, cs[j].b.id})
  }

  /** A family of disjoint complementary pairs of the given intents. */
  ghost predicate Family(intents: seq<Intent>, f: set<(Intent, Intent)>) {
    && Disjoint(f)
    && forall p | p in f :: p.0 in intents && p.1 in intents && Complementary(p.0, p.1)
  }

  /** A family that leaves no two complementary intents both unmatched. */
  ghost predicate Maximal(intents: seq<Intent>, m: set<(Intent, Intent)>) {
    && Family(intents, m)
    && forall x, y | x in intents && y in intents && Complementary(x, y) :: x in Ends(m) || y in Ends(m)
  }

  lemma {:induction false} PairSetCount(cs: seq<Crossing>)
    requires DisjointIds(cs)
    ensures |PairSet(cs)| == |cs|
  {
    var ps := seq(|cs|, k requires 0 <= k < |cs| => (cs[k].a, cs[k].b));
    forall i, j | 0 <= i < j < |ps| ensures ps[i] != ps[j] {
      assert cs[i].a.id in {cs[i].a.id, cs[i].b.id};
    }
    NoDuplicatesCount(ps);
    assert PairSet(cs) == (set p | p in ps) by {
      assert forall k | 0 <= k < |cs| :: ps[k] in ps && cs[k] in cs;
    }
  }

  lemma {:induction false} PairSetDisjoint(cs: seq<Crossing>)
    requires DisjointIds(cs)
    ensures Disjoint(PairSet(cs))
  {
    forall p, q | p in PairSet(cs) && q in PairSet(cs) && p != q ensures p.0 != q.0 && p.0 != q.1 && p.1 != q.1 {
      var i :| 0 <= i < |cs| && p == (cs[i].a, cs[i].b);
      var j :| 0 <= j < |cs| && q == (cs[j].a, cs[j].b);
      assert {cs[i].a.id, cs[i].b.id} !! {cs[j].a.id, cs[j].b.id};
      assert p.0.id in {cs[i].a.id, cs[i].b.id} && p.1.id in {cs[i].a.id, cs[i].b.id};
    }
  }

  /** No intent is matched twice or with itself, whatever the asset names, ids and amounts are. */
  lemma {:induction false} MatchingDisjoint(sort: Sorter, intents: seq<Intent>)
    requires SortsByAmount(sort)
    ensures DisjointIds(Matching(sort, intents))
    ensures forall c | c in Matching(sort, intents) :: c.a in intents && c.b in intents
  {
    NetKeysExtends(sort, intents, Keys(intents), {});
  }

  /** Every reported pair is complementary and carries the asset pair of its first intent. */
  lemma {:induction false} MatchingSound(sort: Sorter, intents: seq<Intent>)
    requires SortsByAmount(sort) && BarFree(intents)
    ensures forall c | c in Matching(sort, intents) ::
              Complementary(c.a, c.b) && c.input == c.a.input && c.output == c.a.output
  {
    NetKeysExtends(sort, intents, Keys(intents), {});
    forall c | c in Matching(sort, intents)
      ensures Complementary(c.a, c.b) && c.input == c.a.input && c.output == c.a.output
    {
      KeyOfBarFree(c.a);
      KeyOfBarFree(c.b);
      KeyReadsBack(c.a.output, c.a.input);
      assert (c.b.input, c.b.output) == Assets(JoinKey(c.a.output, c.a.input));
    }
  }

  /** What a reported match says of two intents. */
  ghost predicate Reports(m: MatchResult, a: Intent, b: Intent) {
    && m.intentA == a.id && m.intentB == b.id && Complementary(a, b)
    && m.input == a.input && m.output == a.output
    && m.amount <= a.amount && m.amount <= b.amount && m.amount in {a.amount, b.amount}
  }

  /** Every reported match names two of the intents, with the smaller of their amounts. */
  lemma {:induction false} ReportsSound(sort: Sorter, intents: seq<Intent>, k: nat) returns (a: Intent, b: Intent)
    requires SortsByAmount(sort) && BarFree(intents) && k < |RenderAll(Matching(sort, intents))|
    ensures a in intents && b in intents && Reports(RenderAll(Matching(sort, intents))[k], a, b)
  {
    var c := Matching(sort, intents)[k];
    MatchingDisjoint(sort, intents);
    MatchingSound(sort, intents);
    a, b := c.a, c.b;
  }

  lemma {:induction false} UsedAreEnds(intents: seq<Intent>, cs: seq<Crossing>, z: Intent)
    requires DistinctIds(intents) && forall c | c in cs :: c.a in intents && c.b in intents
    requires z in intents && z.id in Ids(cs)
    ensures z in Ends(PairSet(cs))
  {
    var c :| c in cs && (c.a.id == z.id || c.b.id == z.id);
    assert (c.a, c.b) in PairSet(cs);
    if c.a.id == z.id { SameIntent(intents, c.a, z); } else { SameIntent(intents, c.b, z); }
  }

  /** The result cannot be extended: two complementary intents are never both left over. */
  lemma {:induction false} MatchingMaximal(sort: Sorter, intents: seq<Intent>)
    requires SortsByAmount(sort) && DistinctIds(intents) && BarFree(intents)
    ensures Maximal(intents, PairSet(Matching(sort, intents)))
  {
    var cs := Matching(sort, intents);
    MatchingDisjoint(sort, intents);
    MatchingSound(sort, intents);
    PairSetDisjoint(cs);
    forall x, y | x in intents && y in intents && Complementary(x, y)
      ensures x in Ends(PairSet(cs)) || y in Ends(PairSet(cs))
    {
      KeysComplete(intents);
      assert x in Group(intents, Key(x));
      NetKeysExhausts(sort, intents, Keys(intents), {}, x, y);
      NetKeysExtends(sort, intents, Keys(intents), {});
      if x.id in Ids(cs) { UsedAreEnds(intents, cs, x); } else { UsedAreEnds(intents, cs, y); }
    }
  }

  // ---------- counting per asset pair ----------

  ghost function Direction(intents: seq<Intent>, x: string, y: string): set<Intent> {
    set i | i in intents && i.input == x && i.output == y
  }

  ghost function Class(i: Intent): set<string> {
    {i.input, i.output}
  }

  ghost function Within(f: set<(Intent, Intent)>, class_: set<string>): set<(Intent, Intent)> {
    set p | p in f && Class(p.0) == class_
  }

  /** The end of a complementary pair that goes from `x`. */
  function Toward(p: (Intent, Intent), x: string): Intent {
    if p.0.input == x then p.0 else p.1
  }

  lemma {:induction false} ClassOf(i: Intent, x: string, y: string)
    ensures Class(i) == {x, y} <==> (i.input == x && i.output == y) || (i.input == y && i.output == x)
  {
    if Class(i) == {x, y} {
      assert i.input in {x, y} && i.output in {x, y};
      assert x in Class(i) && y in Class(i);
    }
  }

  lemma {:induction false} CrossBound(intents: seq<Intent>, f: set<(Intent, Intent)>, x: string, y: string)
    requires Family(intents, f) && x != y
    ensures |Within(f, {x, y})| <= |Direction(intents, x, y)|
  {
    var g := Within(f, {x, y});
    forall p | p in g ensures Toward(p, x) in Direction(intents, x, y) {
      ClassOf(p.0, x, y);
    }
    InjectionCount(g, Direction(intents, x, y), (p: (Intent, Intent)) => Toward(p, x));
  }

  lemma {:induction false} SameBound(intents: seq<Intent>, f: set<(Intent, Intent)>, x: string)
    requires Family(intents, f)
    ensures 2 * |Within(f, {x})| <= |Direction(intents, x, x)|
  {
    var g := Within(f, {x});
    EndsCount(g);
    forall p | p in g ensures p.0 in Direction(intents, x, x) && p.1 in Direction(intents, x, x) {
      ClassOf(p.0, x, x);
    }
    SubsetCount(Ends(g), Direction(intents, x, x));
  }

  lemma {:induction false} ImageCount(g: set<(Intent, Intent)>, x: string)
    ensures |(set p | p in g :: Toward(p, x))| <= |g|
  {
    if g == {} {
      assert (set p | p in g :: Toward(p, x)) == {};
    } else {
      var p :| p in g;
      ImageCount(g - {p}, x);
      assert (set q | q in g :: Toward(q, x)) == (set q | q in g - {p} :: Toward(q, x)) + {Toward(p, x)};
    }
  }

  /** If every intent of one direction is an end of the family, the family has a pair for each. */
  lemma {:induction false} CrossCovered(intents: seq<Intent>, f: set<(Intent, Intent)>, x: string, y: string)
    requires Family(intents, f) && x != y
    requires Direction(intents, x, y) <= Ends(f)
    ensures |Direction(intents, x, y)| <= |Within(f, {x, y})|
  {
    var d, g := Direction(intents, x, y), Within(f, {x, y});
    var image := set p | p in g :: Toward(p, x);
    forall i | i in d ensures i in image {
      var p :| p in f && (p.0 == i || p.1 == i);
      ClassOf(p.0, x, y);
      assert p in g && Toward(p, x) == i;
    }
    ImageCount(g, x);
    SubsetCount(d, image);
  }

  lemma {:induction false} MaximalCross(intents: seq<Intent>, m: set<(Intent, Intent)>, x: string, y: string)
    requires Maximal(intents, m) && DistinctIds(intents) && x != y
    ensures |Within(m, {x, y})| == Min(|Direction(intents, x, y)|, |Direction(intents, y, x)|)
  {
    CrossBound(intents, m, x, y);
    CrossBound(intents, m, y, x);
    assert {x, y} == {y, x};
    if Direction(intents, x, y) <= Ends(m) {
      CrossCovered(intents, m, x, y);
    } else {
      var i :| i in Direction(intents, x, y) && i !in Ends(m);
      forall j | j in Direction(intents, y, x) ensures j in Ends(m) {
        if i.id == j.id { SameIntent(intents, i, j); }
        assert Complementary(i, j);
      }
      CrossCovered(intents, m, y, x);
    }
  }

  lemma {:induction false} EndsWithin(intents: seq<Intent>, m: set<(Intent, Intent)>, x: string, i: Intent)
    requires Family(intents, m) && i in Direction(intents, x, x) && i in Ends(m)
    ensures i in Ends(Within(m, {x}))
  {
    var p :| p in m && (p.0 == i || p.1 == i);
    ClassOf(p.0, x, x);
    assert p in Within(m, {x});
  }

  /** At most one intent of a same-asset group is left over. */
  lemma {:induction false} OneLeft(intents: seq<Intent>, m: set<(Intent, Intent)>, x: string, i: Intent, j: Intent)
    requires Maximal(intents, m) && DistinctIds(intents)
    requires i in Direction(intents, x, x) && j in Direction(intents, x, x) && i != j
    ensures i in Ends(Within(m, {x})) || j in Ends(Within(m, {x}))
  {
    if i.id == j.id { SameIntent(intents, i, j); }
    assert Complementary(i, j);
    if i in Ends(m) { EndsWithin(intents, m, x, i); } else { EndsWithin(intents, m, x, j); }
  }

  lemma {:induction false} MaximalSame(intents: seq<Intent>, m: set<(Intent, Intent)>, x: string)
    requires Maximal(intents, m) && DistinctIds(intents)
    ensures |Within(m, {x})| == |Direction(intents, x, x)| / 2
  {
    SameBound(intents, m, x);
    var d, g := Direction(intents, x, x), Within(m, {x});
    EndsCount(g);
    if i :| i in d && i !in Ends(g) {
      forall j | j in d - {i} ensures j in Ends(g) {
        OneLeft(intents, m, x, i, j);
      }
      SubsetCount(d - {i}, Ends(g));
    } else {
      SubsetCount(d, Ends(g));
    }
  }

  lemma {:induction false} ClassBound(
    intents: seq<Intent>, f: set<(Intent, Intent)>, m: set<(Intent, Intent)>, p: (Intent, Intent))
    requires Maximal(intents, m) && DistinctIds(intents)
    requires Family(intents, f)
    ensures |Within(f, Class(p.0))| <= |Within(m, Class(p.0))|
  {
    var x, y := p.0.input, p.0.output;
    if x == y {
      assert Class(p.0) == {x};
      SameBound(intents, f, x);
      MaximalSame(intents, m, x);
    } else {
      assert {x, y} == {y, x};
      CrossBound(intents, f, x, y);
      CrossBound(intents, f, y, x);
      MaximalCross(intents, m, x, y);
    }
  }

  lemma {:induction false} RemoveClass(
    f: set<(Intent, Intent)>, rest: set<(Intent, Intent)>, m: set<(Intent, Intent)>, p: (Intent, Intent))
    requires p in f && Within(m, Class(p.0)) <= rest
    ensures p in Within(f, Class(p.0))
    ensures |f| == |f - Within(f, Class(p.0))| + |Within(f, Class(p.0))|
    ensures |rest| == |rest - Within(m, Class(p.0))| + |Within(m, Class(p.0))|
  {
    var here, there := Within(f, Class(p.0)), Within(m, Class(p.0));
    assert f == (f - here) + here && rest == (rest - there) + there;
  }

  /** Peels one asset pair at a time off both families. */
  lemma {:induction false} SumOverClasses(
    intents: seq<Intent>, f: set<(Intent, Intent)>, m: set<(Intent, Intent)>, rest: set<(Intent, Intent)>)
    requires Maximal(intents, m) && DistinctIds(intents)
    requires Family(intents, f)
    requires forall p | p in f :: Within(m, Class(p.0)) <= rest
    ensures |f| <= |rest|
    decreases |f|
  {
    if p :| p in f {
      ClassBound(intents, f, m, p);
      RemoveClass(f, rest, m, p);
      var f', rest' := f - Within(f, Class(p.0)), rest - Within(m, Class(p.0));
      forall q | q in f' ensures Within(m, Class(q.0)) <= rest' {
      }
      SumOverClasses(intents, f', m, rest');
    }
  }

  // ---------- main counting results ----------

  /** Opposite directions X->Y and Y->X give exactly as many matches as the shorter one has intents. */
  lemma {:induction false} CrossCount(sort: Sorter, intents: seq<Intent>, x: string, y: string)
    requires SortsByAmount(sort) && DistinctIds(intents) && BarFree(intents) && x != y
    ensures |Within(PairSet(Matching(sort, intents)), {x, y})|
         == Min(|Direction(intents, x, y)|, |Direction(intents, y, x)|)
  {
    MatchingMaximal(sort, intents);
    MaximalCross(intents, PairSet(Matching(sort, intents)), x, y);
  }

  /** A same-asset group of n intents gives exactly floor(n / 2) matches. */
  lemma {:induction false} SameCount(sort: Sorter, intents: seq<Intent>, x: string)
    requires SortsByAmount(sort) && DistinctIds(intents) && BarFree(intents)
    ensures |Within(PairSet(Matching(sort, intents)), {x})| == |Direction(intents, x, x)| / 2
  {
    MatchingMaximal(sort, intents);
    MaximalSame(intents, PairSet(Matching(sort, intents)), x);
  }

  /** The matcher finds a maximum matching: no family of disjoint complementary pairs is larger. */
  lemma {:induction false} MatchingMaximum(sort: Sorter, intents: seq<Intent>, f: set<(Intent, Intent)>)
    requires SortsByAmount(sort) && DistinctIds(intents) && BarFree(intents)
    requires Family(intents, f)
    ensures |f| <= |Matching(sort, intents)|
  {
    var cs := Matching(sort, intents);
    MatchingMaximal(sort, intents);
    MatchingDisjoint(sort, intents);
    PairSetCount(cs);
    SumOverClasses(intents, f, PairSet(cs), PairSet(cs));
  }

  // ---------- where the asset names matter ----------

  lemma {:induction false} SortOne(sort: Sorter, i: Intent)
    requires SortsByAmount(sort)
    ensures sort([i]) == [i]
  {
    SortKeepsElements(sort, [i]);
    assert sort([i])[0] in sort([i]);
  }

  lemma {:induction false} GroupTwo(i: Intent, j: Intent, key: string)
    ensures Group([i, j], key) == (if Key(i) == key then [i] else []) + (if Key(j) == key then [j] else [])
  {
    GroupSnoc([i, j], 1, key);
    GroupSnoc([i, j], 0, key);
    assert [i, j][..2] == [i, j] && [i, j][..0] == [];
  }

  lemma {:induction false} KeysTwo(i: Intent, j: Intent)
    requires Key(i) != Key(j)
    ensures Keys([i, j]) == [Key(i), Key(j)]
  {
    assert [i, j][..1] == [i] && [i][..0] == [];
    assert Keys([i]) == [Key(i)];
  }

  lemma {:induction false} NetTwo(i: Intent, j: Intent, input: string, output: string)
    requires i.id != j.id
    ensures Net([i], [j], 0, 0, {}, input, output) == ([Crossing(i, j, input, output)], {i.id, j.id})
  {
    assert {} + {i.id, j.id} == {i.id, j.id};
    assert [Crossing(i, j, input, output)] + [] == [Crossing(i, j, input, output)];
  }

  /** The first of two intents meets the second when its reversed key is the second's. */
  lemma {:induction false} FirstKeyTwo(sort: Sorter, i: Intent, j: Intent)
    requires SortsByAmount(sort) && i.id != j.id && Key(i) != Key(j) && ReverseKey(Key(i)) == Key(j)
    ensures NetKey(sort, [i, j], Key(i), {})
         == ([Crossing(i, j, Assets(Key(i)).0, Assets(Key(i)).1)], {i.id, j.id})
  {
    GroupTwo(i, j, Key(i));
    GroupTwo(i, j, Key(j));
    assert Group([i, j], Key(i)) == [i] && Group([i, j], Key(j)) == [j];
    SortOne(sort, i);
    SortOne(sort, j);
    NetTwo(i, j, Assets(Key(i)).0, Assets(Key(i)).1);
  }

  lemma {:induction false} MatchingStarts(sort: Sorter, i: Intent, j: Intent)
    requires SortsByAmount(sort) && i.id != j.id && Key(i) != Key(j) && ReverseKey(Key(i)) == Key(j)
    ensures Matching(sort, [i, j])
         == [Crossing(i, j, Assets(Key(i)).0, Assets(Key(i)).1)] + NetKeys(sort, [i, j], [Key(j)], {i.id, j.id}).0
  {
    FirstKeyTwo(sort, i, j);
    KeysTwo(i, j);
    assert [Key(i), Key(j)][1..] == [Key(j)];
  }

  /** Two intents in different groups, where only the first key's reverse is a group. */
  lemma {:induction false} MatchingTwo(sort: Sorter, i: Intent, j: Intent)
    requires SortsByAmount(sort) && i.id != j.id && Key(i) != Key(j)
    requires ReverseKey(Key(i)) == Key(j) && ReverseKey(Key(j)) != Key(i) && ReverseKey(Key(j)) != Key(j)
    ensures Matching(sort, [i, j]) == [Crossing(i, j, Assets(Key(i)).0, Assets(Key(i)).1)]
  {
    MatchingStarts(sort, i, j);
    GroupTwo(i, j, ReverseKey(Key(j)));
    assert NetKey(sort, [i, j], Key(j), {i.id, j.id}) == ([], {i.id, j.id});
    assert [Key(j)][1..] == [];
  }

  /** With a bar in an asset name, two intents that are not complementary are matched. */
  lemma {:induction false} BarsBreakSoundness(sort: Sorter)
    requires SortsByAmount(sort)
    ensures var i, j := Intent("1", 5, "A|B", "A"), Intent("2", 5, "B", "A");
            && !Complementary(i, j)
            && Matching(sort, [i, j]) == [Crossing(i, j, "A", "B")]
  {
    var i, j := Intent("1", 5, "A|B", "A"), Intent("2", 5, "B", "A");
    assert Key(i) == JoinKey("A", "B|A") && Key(j) == JoinKey("B", "A");
    SplitJoin("A", "B|A");
    SplitJoin("B", "A");
    SplitWithoutBar("A");
    assert "B|A" == JoinKey("B", "A");
    assert Assets(Key(i)) == ("A", "B") && Assets(Key(j)) == ("B", "A");
    assert |Key(i)| == 5 && Key(j)[0] == 'B' && ReverseKey(Key(j))[0] == 'A' && |ReverseKey(Key(j))| == 3;
    MatchingTwo(sort, i, j);
  }

  /** A key of two bar-free names is joined in one way only. */
  lemma {:induction false} JoinUnique(a: string, b: string, c: string, d: string)
    requires NoBar(c) && NoBar(d) && JoinKey(a, b) == JoinKey(c, d)
    ensures a == c && b == d
  {
    var s := JoinKey(a, b);
    assert s[|a|] == '|' && s[|c|] == '|';
    assert forall k | 0 <= k < |s| && k != |c| :: s[k] == (if k < |c| then c[k] else d[k - |c| - 1]) && s[k] != '|';
    assert s[..|a|] == a && s[..|c|] == c && s[|a| + 1..] == b && s[|c| + 1..] == d;
  }

  /** The intent whose key is the reverse of i's key as it is read back. */
  function Stranger(i: Intent): Intent {
    Intent(i.id + "'", i.amount, Assets(Key(i)).1, Assets(Key(i)).0)
  }

  /** Every intent with a bar in a name is matched with one it is not complementary to. */
  lemma {:induction false} BarsMatchStrangers(sort: Sorter, i: Intent)
    requires SortsByAmount(sort) && !(NoBar(i.input) && NoBar(i.output))
    ensures var j := Stranger(i);
            && NoBar(j.input) && NoBar(j.output) && !Complementary(i, j)
            && Matching(sort, [i, j]) != [] && Matching(sort, [i, j])[0].a == i && Matching(sort, [i, j])[0].b == j
  {
    var j := Stranger(i);
    SplitPiecesBarFree(Key(i));
    assert |i.id| != |j.id|;
    KeyReadsBack(i.input, i.output);
    if Key(i) == Key(j) { JoinUnique(i.input, i.output, j.input, j.output); }
    MatchingStarts(sort, i, j);
  }

  /** The exact condition, for every match of any list of intents: it joins complementary intents iff
      neither asset name of its first side contains a bar. Those of its second side never do. */
  lemma {:induction false} SoundIffBarFree(sort: Sorter, intents: seq<Intent>, c: Crossing)
    requires SortsByAmount(sort) && c in Matching(sort, intents)
    ensures Complementary(c.a, c.b) <==> NoBar(c.a.input) && NoBar(c.a.output)
    ensures NoBar(c.b.input) && NoBar(c.b.output)
  {
    NetKeysExtends(sort, intents, Keys(intents), {});
    SplitPiecesBarFree(Key(c.a));
    KeyReadsBack(c.a.input, c.a.output);
    JoinUnique(c.b.input, c.b.output, Assets(Key(c.a)).1, Assets(Key(c.a)).0);
  }
}
