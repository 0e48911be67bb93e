/** The netting matcher: groups intents by direction, orders each direction by amount and pairs
    opposite directions with two pointers and a set of ids already used. */
module Netting {

  datatype Intent = Intent(id: string, amount: int, input: string, output: string)

  /** A match before it is rendered: the two intents and the asset pair read back from the key. */
  datatype Crossing = Crossing(a: Intent, b: Intent, input: string, output: string)

  datatype MatchResult = MatchResult(intentA: string, intentB: string, amount: int, input: string, output: string)

  /** The engine's sort. The comparator never answers "equal", so the order of equal amounts is the
      engine's choice; every result below holds for every such choice. */
  type Sorter = seq<Intent> -> seq<Intent>

  ghost predicate Ascending(s: seq<Intent>) {
    forall i, j | 0 <= i < j < |s| :: s[i].amount <= s[j].amount
  }

  ghost predicate SortsByAmount(sort: Sorter) {
    forall s :: multiset(sort(s)) == multiset(s) && Ascending(sort(s))
  }

  function Min(x: int, y: int): int {
    if x < y then x else y
  }

  function Render(c: Crossing): MatchResult {
    MatchResult(c.a.id, c.b.id, Min(c.a.amount, c.b.amount), c.input, c.output)
  }

  predicate Names(m: MatchResult, id: string) {
    m.intentA == id || m.intentB == id
  }

  function RenderAll(cs: seq<Crossing>): seq<MatchResult> {
    seq(|cs|, k requires 0 <= k < |cs| => Render(cs[k]))
  }

  // ---------- grouping by direction ----------

  function JoinKey(input: string, output: string): string {
    input + "|" + output
  }

  function Key(i: Intent): string {
    JoinKey(i.input, i.output)
  }

  /** The pieces of a string between bars. */
  function Split(s: string): (parts: seq<string>)
    ensures |parts| >= 1
  {
    if s == "" then [""]
    else
      var rest := Split(s[1..]);
      if s[0] == '|' then [""] + rest else [[s[0]] + rest[0]] + rest[1..]
  }

  /** The asset pair a key is read back as: its first two pieces. */
  function Assets(key: string): (string, string) {
    var parts := Split(key);
    (parts[0], if |parts| > 1 then parts[1] else "")
  }

  function ReverseKey(key: string): string {
    JoinKey(Assets(key).1, Assets(key).0)
  }

  function Group(intents: seq<Intent>, key: string): (g: seq<Intent>)
    ensures forall i :: i in g <==> i in intents && Key(i) == key
  {
    if intents == [] then []
    else
      var n := |intents| - 1;
      var g := Group(intents[..n], key);
      assert intents == intents[..n] + [intents[n]];
      if Key(intents[n]) == key then g + [intents[n]] else g
  }

  /** Group keys in order of first appearance. */
  function Keys(intents: seq<Intent>): seq<string> {
    if intents == [] then []
    else
      var n := |intents| - 1;
      var ks := Keys(intents[..n]);
      if Key(intents[n]) in ks then ks else ks + [Key(intents[n])]
  }

  // ---------- two-pointer netting ----------

  function Net(a: seq<Intent>, b: seq<Intent>, ai: nat, bi: nat, used: set<string>, input: string, output: string)
    : (r: (seq<Crossing>, set<string>))
    requires ai <= |a| && bi <= |b|
    decreases |a| - ai + |b| - bi
  {
    if ai == |a| || bi == |b| then ([], used)
    else if a[ai].id in used then Net(a, b, ai + 1, bi, used, input, output)
    else if b[bi].id in used || a[ai].id == b[bi].id then Net(a, b, ai, bi + 1, used, input, output)
    else
      var rest := Net(a, b, ai + 1, bi + 1, used + {a[ai].id, b[bi].id}, input, output);
      ([Crossing(a[ai], b[bi], input, output)] + rest.0, rest.1)
  }

  function NetKey(sort: Sorter, intents: seq<Intent>, key: string, used: set<string>): (seq<Crossing>, set<string>) {
    var reverse := Group(intents, ReverseKey(key));
    if reverse == [] then ([], used)
    else Net(sort(Group(intents, key)), sort(reverse), 0, 0, used, Assets(key).0, Assets(key).1)
  }

  function NetKeys(sort: Sorter, intents: seq<Intent>, keys: seq<string>, used: set<string>)
    : (seq<Crossing>, set<string>)
  {
    if keys == [] then ([], used)
    else
      var here := NetKey(sort, intents, keys[0], used);
      var rest := NetKeys(sort, intents, keys[1..], here.1);
      (here.0 + rest.0, rest.1)
  }

  function Matching(sort: Sorter, intents: seq<Intent>): seq<Crossing> {
    NetKeys(sort, intents, Keys(intents), {}).0
  }

  // ---------- the loops ----------

  lemma {:induction false} GroupSnoc(intents: seq<Intent>, n: nat, key: string)
    requires n < |intents|
    ensures Group(intents[..n + 1], key)
         == Group(intents[..n], key) + (if Key(intents[n]) == key then [intents[n]] else [])
  {
    assert intents[..n + 1][..n] == intents[..n];
  }

  lemma {:induction false} KeysComplete(intents: seq<Intent>)
    ensures forall k :: k in Keys(intents) <==> Group(intents, k) != []
    ensures forall x, y | 0 <= x < y < |Keys(intents)| :: Keys(intents)[x] != Keys(intents)[y]
  {
    if intents != [] {
      KeysComplete(intents[..|intents| - 1]);
    }
  }

  method BuildGroups(intents: seq<Intent>) returns (keys: seq<string>, groups: map<string, seq<Intent>>)
    ensures keys == Keys(intents)
    ensures forall k :: k in groups <==> k in keys
    ensures forall k :: k in groups <==> Group(intents, k) != []
    ensures forall k | k in groups :: groups[k] == Group(intents, k)
  {
    keys, groups := [], map[];
    for n := 0 to |intents|
      invariant keys == Keys(intents[..n])
      invariant forall k :: k in groups <==> k in keys
      invariant forall k | k in groups :: groups[k] == Group(intents[..n], k)
    {
      var key := Key(intents[n]);
      KeysComplete(intents[..n]);
      forall k { GroupSnoc(intents, n, k); }
      assert intents[..n + 1][..n] == intents[..n];
      if key !in groups {
        keys := keys + [key];
        groups := groups[key := [intents[n]]];
      } else {
        groups := groups[key := groups[key] + [intents[n]]];
      }
    }
    assert intents[..|intents|] == intents;
    KeysComplete(intents);
  }

  method NetPointers(a: seq<Intent>, b: seq<Intent>, used0: set<string>, input: string, output: string)
    returns (cs: seq<Crossing>, used: set<string>)
    ensures (cs, used) == Net(a, b, 0, 0, used0, input, output)
  {
    var ai, bi := 0, 0;
    cs, used := [], used0;
    assert [] + Net(a, b, 0, 0, used0, input, output).0 == Net(a, b, 0, 0, used0, input, output).0;
    while ai < |a| && bi < |b|
      invariant ai <= |a| && bi <= |b|
      invariant Net(a, b, 0, 0, used0, input, output)
             == (cs + Net(a, b, ai, bi, used, input, output).0, Net(a, b, ai, bi, used, input, output).1)
      decreases |a| - ai + |b| - bi
    {
      if a[ai].id in used {
        ai := ai + 1;
      } else if b[bi].id in used || a[ai].id == b[bi].id {
        bi := bi + 1;
      } else {
        ghost var before := cs;
        ghost var tail := Net(a, b, ai, bi, used, input, output).0;
        var c := Crossing(a[ai], b[bi], input, output);
        cs := cs + [c];
        used := used + {a[ai].id, b[bi].id};
        ai, bi := ai + 1, bi + 1;
        assert before + tail == cs + Net(a, b, ai, bi, used, input, output).0;
      }
    }
    assert cs + [] == cs;
  }

  method NetGroup(
    sort: Sorter, ghost intents: seq<Intent>, groups: map<string, seq<Intent>>, key: string, used0: set<string>)
    returns (cs: seq<Crossing>, used: set<string>)
    requires key in groups
    requires forall k :: k in groups <==> Group(intents, k) != []
    requires forall k | k in groups :: groups[k] == Group(intents, k)
    ensures (cs, used) == NetKey(sort, intents, key, used0)
  {
    var (input, output) := Assets(key);
    var reverseKey := JoinKey(output, input);
    if reverseKey in groups {
      cs, used := NetPointers(sort(groups[key]), sort(groups[reverseKey]), used0, input, output);
    } else {
      cs, used := [], used0;
    }
  }

  lemma {:induction false} NetKeysStep(
    sort: Sorter, intents: seq<Intent>, keys: seq<string>, n: nat, used: set<string>, cs: seq<Crossing>)
    requires n < |keys|
    ensures var here := NetKey(sort, intents, keys[n], used);
            && cs + NetKeys(sort, intents, keys[n..], used).0
               == (cs + here.0) + NetKeys(sort, intents, keys[n + 1..], here.1).0
            && NetKeys(sort, intents, keys[n..], used).1 == NetKeys(sort, intents, keys[n + 1..], here.1).1
  {
    assert keys[n..][0] == keys[n] && keys[n..][1..] == keys[n + 1..];
  }

  method MatchIntents(sort: Sorter, intents: seq<Intent>) returns (matches: seq<MatchResult>)
    ensures matches == RenderAll(Matching(sort, intents))
  {
    var keys, groups := BuildGroups(intents);
    var cs: seq<Crossing> := [];
    var used: set<string> := {};
    ghost var all := NetKeys(sort, intents, keys, {}).0;
    assert keys[0..] == keys && [] + all == all;
    for n := 0 to |keys|
      invariant all == cs + NetKeys(sort, intents, keys[n..], used).0
    {
      NetKeysStep(sort, intents, keys, n, used, cs);
      var here, used' := NetGroup(sort, intents, groups, keys[n], used);
      cs, used := cs + here, used';
    }
    assert cs + [] == cs;
    matches := RenderAll(cs);
  }
}
