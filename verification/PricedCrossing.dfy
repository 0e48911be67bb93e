/** Priced crossing of two assets at one scaled integer price, without partial fills, and the greedy
    matcher over a list of priced intents. */
module PricedCrossing {
  const PRICE_SCALE := 1_000_000_000

  /** `amount` of `input` is offered whole; `limit` is output units per input unit, times the scale. */
  datatype PricedIntent = PricedIntent(
    id: string, input: string, output: string, amount: int, minOutput: int, limit: int)

  datatype PricedMatch = PricedMatch(
    intentA: string, intentB: string,
    inputA: string, outputA: string, inputB: string, outputB: string,
    amountA: int, amountB: int, price: int, minOutputA: int, minOutputB: int)

  /** The pair matcher returns null, returns a match, or divides by a zero amount. */
  datatype PairOutcome = NoMatch | Crosses(m: PricedMatch) | Throws

  /** Division of big integers: rounds toward zero. */
  function TruncDiv(x: int, y: int): int
    requires y != 0
  {
    if x >= 0 then (if y > 0 then x / y else -(x / -y))
    else (if y > 0 then -(-x / y) else -x / -y)
  }

  function MatchPricedPair(a: PricedIntent, b: PricedIntent): PairOutcome {
    if a.input != b.output || a.output != b.input || a.input == a.output then NoMatch
    else
      var outputForA := TruncDiv(a.amount * a.limit, PRICE_SCALE);
      var outputForB := a.amount;
      if b.amount != outputForA || outputForA < a.minOutput || outputForB < b.minOutput then NoMatch
      else if b.amount == 0 then Throws
      else if TruncDiv(outputForB * PRICE_SCALE, b.amount) < b.limit then NoMatch
      else Crosses(PricedMatch(a.id, b.id, a.input, a.output, b.input, b.output,
                               a.amount, outputForA, a.limit, a.minOutput, b.minOutput))
  }

  /** The quotient of big integers: the multiple of the divisor nearest to the dividend on zero's side. */
  lemma {:induction false} TruncDivExact(x: int, y: int)
    requires y != 0
    ensures var rest := x - TruncDiv(x, y) * y;
            (x >= 0 ==> 0 <= rest) && (x <= 0 ==> rest <= 0) && -Abs(y) < rest < Abs(y)
  {
    var n, d := Abs(x), Abs(y);
    assert n == n / d * d + n % d;
    assert n / d * d == -(n / d) * -d;
  }

  function Abs(x: int): int {
    if x < 0 then -x else x
  }

  // ---------- one pair ----------

  predicate Opposite(a: PricedIntent, b: PricedIntent) {
    a.input == b.output && a.output == b.input && a.input != a.output
  }

  /** What a match promises both parties: the two spend their whole amounts, each receives what the
      other spends, and each minimum is met. */
  lemma {:induction false} MatchFillsBoth(a: PricedIntent, b: PricedIntent)
    requires MatchPricedPair(a, b).Crosses?
    ensures var m := MatchPricedPair(a, b).m;
            && m.amountA == a.amount && m.amountB == b.amount
            && m.inputA == a.input && m.inputB == b.input && m.outputA == b.input && m.outputB == a.input
            && a.input != b.input
            && m.amountB >= a.minOutput && m.amountA >= b.minOutput
            && m.intentA == a.id && m.intentB == b.id && m.price == a.limit
            && m.minOutputA == a.minOutput && m.minOutputB == b.minOutput
  {
  }

  lemma {:induction false} FloorBounds(n: int, d: int)
    requires n >= 0 && d > 0
    ensures n - d < TruncDiv(n, d) * d <= n
  {
    assert n == (n / d) * d + n % d;
  }

  lemma {:induction false} MulOrder(x: int, u: int, v: int)
    requires x > 0
    ensures x * u <= x * v <==> u <= v
  {
    if u < v {
      MulStep(x, u, v);
    } else if v < u {
      MulStep(x, v, u);
    }
  }

  lemma {:induction false} MulStep(x: int, u: int, v: int)
    requires x > 0 && u < v
    ensures x * u + x <= x * v
    decreases v - u
  {
    assert x * (v - 1) == x * v - x;
    if u < v - 1 {
      MulStep(x, u, v - 1);
    }
  }

  lemma {:induction false} FloorAtLeast(n: int, d: int, k: int)
    requires n >= 0 && d > 0
    ensures TruncDiv(n, d) >= k <==> n >= d * k
  {
    FloorBounds(n, d);
    var q := TruncDiv(n, d);
    assert q * d == d * q;
    MulOrder(d, k, q);
    MulOrder(d, q + 1, k);
    assert d * (q + 1) == d * q + d;
  }

  /** Party A receives its limit price rounded down by less than one unit, and party B is matched
      exactly when its limit holds on the real quotient: flooring the rate never costs B anything. */
  lemma {:induction false} CrossingExact(a: PricedIntent, b: PricedIntent)
    requires Opposite(a, b) && a.amount >= 0 && a.limit >= 0 && b.amount > 0
    ensures MatchPricedPair(a, b).Crosses? <==>
              && a.amount * a.limit - PRICE_SCALE < b.amount * PRICE_SCALE <= a.amount * a.limit
              && a.minOutput <= b.amount && b.minOutput <= a.amount
              && b.limit * b.amount <= a.amount * PRICE_SCALE
  {
    var y := TruncDiv(a.amount * a.limit, PRICE_SCALE);
    assert a.amount * a.limit >= 0;
    FloorBounds(a.amount * a.limit, PRICE_SCALE);
    FloorAtLeast(a.amount * PRICE_SCALE, b.amount, b.limit);
    assert b.amount == y <==> a.amount * a.limit - PRICE_SCALE < b.amount * PRICE_SCALE <= a.amount * a.limit;
  }

  lemma {:induction false} ScaleLimit(x: int, p: int, y: int, q: int)
    requires x > 0 && y * PRICE_SCALE == x * p
    ensures q * y <= x * PRICE_SCALE <==> p * q <= PRICE_SCALE * PRICE_SCALE
  {
    assert q * y * PRICE_SCALE == x * (p * q) by {
      assert q * (y * PRICE_SCALE) == q * (x * p);
    }
    assert q * y <= x * PRICE_SCALE <==> q * y * PRICE_SCALE <= x * PRICE_SCALE * PRICE_SCALE;
    assert x * PRICE_SCALE * PRICE_SCALE == x * (PRICE_SCALE * PRICE_SCALE);
    MulOrder(x, p * q, PRICE_SCALE * PRICE_SCALE);
  }

  /** With no rounding in A's output and fitting sizes and minimums, two limits cross exactly when
      their product is at most the scale squared. */
  lemma {:induction false} CrossingByLimits(a: PricedIntent, b: PricedIntent)
    requires Opposite(a, b) && a.amount > 0 && a.limit >= 0 && b.amount > 0
    requires b.amount * PRICE_SCALE == a.amount * a.limit
    requires a.minOutput <= b.amount && b.minOutput <= a.amount
    ensures MatchPricedPair(a, b).Crosses? <==> a.limit * b.limit <= PRICE_SCALE * PRICE_SCALE
  {
    CrossingExact(a, b);
    ScaleLimit(a.amount, a.limit, b.amount, b.limit);
  }

  /** Rounding can let a pair match whose limits do not cross. */
  lemma {:induction false} RoundingCanCross()
    ensures var a := PricedIntent("A", "X", "Y", 3, 0, 500_000_000);
            var b := PricedIntent("B", "Y", "X", 1, 0, 3_000_000_000);
            a.limit * b.limit > PRICE_SCALE * PRICE_SCALE && MatchPricedPair(a, b).Crosses?
  {
    CrossingExact(PricedIntent("A", "X", "Y", 3, 0, 500_000_000), PricedIntent("B", "Y", "X", 1, 0, 3_000_000_000));
  }

  /** The pair matcher divides by zero exactly when nothing is exchanged for A's offer. */
  lemma {:induction false} ThrowsExactly(a: PricedIntent, b: PricedIntent)
    ensures MatchPricedPair(a, b).Throws? <==>
              && Opposite(a, b) && b.amount == 0
              && -PRICE_SCALE < a.amount * a.limit < PRICE_SCALE
              && a.minOutput <= 0 && b.minOutput <= a.amount
  {
    var n := a.amount * a.limit;
    if n >= 0 {
      FloorAtLeast(n, PRICE_SCALE, 1);
    } else {
      FloorAtLeast(-n, PRICE_SCALE, 1);
    }
  }

  // ---------- the greedy matcher ----------

  /** One match with the positions of its two intents. */
  datatype Fill = Fill(i: nat, j: nat, m: PricedMatch)

  datatype ScanOutcome = Found(j: nat, m: PricedMatch) | NoneFound | ScanThrows

  datatype Greedy = Returned(fills: seq<Fill>) | Threw

  /** The inner loop: the first unused position from `j` on that crosses with position `i`. */
  function Scan(intents: seq<PricedIntent>, i: nat, j: nat, used: set<string>): (r: ScanOutcome)
    requires i < |intents| && j <= |intents|
    ensures r.Found? ==> j <= r.j < |intents| && r.j != i && intents[r.j].id !in used
    ensures r.Found? ==> MatchPricedPair(intents[i], intents[r.j]) == Crosses(r.m)
    decreases |intents| - j
  {
    if j == |intents| then NoneFound
    else if i == j || intents[j].id in used || intents[i].id in used then Scan(intents, i, j + 1, used)
    else match MatchPricedPair(intents[i], intents[j])
      case NoMatch => Scan(intents, i, j + 1, used)
      case Crosses(m) => Found(j, m)
      case Throws => ScanThrows
  }

  function GreedyFrom(intents: seq<PricedIntent>, i: nat, used: set<string>): Greedy
    requires i <= |intents|
    decreases |intents| - i
  {
    if i == |intents| then Returned([])
    else if intents[i].id in used then GreedyFrom(intents, i + 1, used)
    else match Scan(intents, i, 0, used)
      case NoneFound => GreedyFrom(intents, i + 1, used)
      case ScanThrows => Threw
      case Found(j, m) => Prepend(Fill(i, j, m), GreedyFrom(intents, i + 1, used + {intents[i].id, intents[j].id}))
  }

  function Prepend(f: Fill, g: Greedy): Greedy {
    if g.Threw? then Threw else Returned([f] + g.fills)
  }

  function Matches(fills: seq<Fill>): seq<PricedMatch> {
    seq(|fills|, k requires 0 <= k < |fills| => fills[k].m)
  }

  function PricedMatching(intents: seq<PricedIntent>): Greedy {
    GreedyFrom(intents, 0, {})
  }

  method ScanLoop(intents: seq<PricedIntent>, i: nat, used: set<string>) returns (r: ScanOutcome)
    requires i < |intents|
    ensures r == Scan(intents, i, 0, used)
  {
    for j := 0 to |intents|
      invariant Scan(intents, i, 0, used) == Scan(intents, i, j, used)
    {
      if i == j || intents[j].id in used || intents[i].id in used { continue; }
      match MatchPricedPair(intents[i], intents[j])
      case NoMatch =>
      case Crosses(m) => return Found(j, m);
      case Throws => return ScanThrows;
    }
    r := NoneFound;
  }

  method MatchPricedIntents(intents: seq<PricedIntent>) returns (threw: bool, out: seq<PricedMatch>)
    ensures threw <==> PricedMatching(intents).Threw?
    ensures !threw ==> out == Matches(PricedMatching(intents).fills)
  {
    threw, out := false, [];
    var used: set<string> := {};
    ghost var done: seq<Fill> := [];
    for i := 0 to |intents|
      invariant out == Matches(done)
      invariant PricedMatching(intents) == Continue(done, GreedyFrom(intents, i, used))
    {
      if intents[i].id in used { continue; }
      var hit := ScanLoop(intents, i, used);
      match hit
      case NoneFound =>
      case ScanThrows => threw := true; return;
      case Found(j, m) =>
        ContinuePrepend(done, Fill(i, j, m), GreedyFrom(intents, i + 1, used + {intents[i].id, intents[j].id}));
        out := out + [m];
        used := used + {intents[i].id, intents[j].id};
        done := done + [Fill(i, j, m)];
    }
    assert done + [] == done;
  }

  ghost function Continue(done: seq<Fill>, g: Greedy): Greedy {
    if g.Threw? then Threw else Returned(done + g.fills)
  }

  lemma {:induction false} ContinuePrepend(done: seq<Fill>, f: Fill, g: Greedy)
    ensures Continue(done, Prepend(f, g)) == Continue(done + [f], g)
  {
    if g.Returned? {
      assert done + ([f] + g.fills) == done + [f] + g.fills;
    }
  }
}
