/** The stream relayer's choice of settlement batches: which channels to close now, soonest expiry
    first, cut into batches of bounded size. */
module StreamBatching {

  /** `payload` stands for the proof and public signals, which the choice does not read. */
  datatype PendingSettlement = PendingSettlement(channelId: int, payload: string, expiryBlock: int, cumulative: int)

  datatype BatchPolicy = BatchPolicy(closeBeforeExpiryBlocks: int, minValueToClose: int, maxBatchSize: nat)

  type Settlements = seq<PendingSettlement>

  predicate IsReady(s: PendingSettlement, currentBlock: int, policy: BatchPolicy) {
    currentBlock >= s.expiryBlock - policy.closeBeforeExpiryBlocks || s.cumulative >= policy.minValueToClose
  }

  function Ready(pending: Settlements, currentBlock: int, policy: BatchPolicy): Settlements {
    if pending == [] then []
    else
      var n := |pending| - 1;
      var ready := Ready(pending[..n], currentBlock, policy);
      if IsReady(pending[n], currentBlock, policy) then ready + [pending[n]] else ready
  }

  /** Puts a settlement behind every one that does not expire later. */
  function Insert(sorted: Settlements, s: PendingSettlement): Settlements {
    if sorted == [] || sorted[|sorted| - 1].expiryBlock <= s.expiryBlock then sorted + [s]
    else Insert(sorted[..|sorted| - 1], s) + [sorted[|sorted| - 1]]
  }

  function SortByExpiry(s: Settlements): Settlements {
    if s == [] then [] else Insert(SortByExpiry(s[..|s| - 1]), s[|s| - 1])
  }

  function Chunks(s: Settlements, size: nat): seq<Settlements>
    requires size >= 1
  {
    if |s| == 0 then [] else if |s| <= size then [s] else [s[..size]] + Chunks(s[size..], size)
  }

  function SelectBatches(pending: Settlements, currentBlock: int, policy: BatchPolicy): seq<Settlements>
    requires policy.maxBatchSize >= 1
  {
    Chunks(SortByExpiry(Ready(pending, currentBlock, policy)), policy.maxBatchSize)
  }

  method FilterReady(pending: Settlements, currentBlock: int, policy: BatchPolicy) returns (ready: Settlements)
    ensures ready == Ready(pending, currentBlock, policy)
  {
    ready := [];
    for k := 0 to |pending|
      invariant ready == Ready(pending[..k], currentBlock, policy)
    {
      assert pending[..k + 1][..k] == pending[..k];
      if IsReady(pending[k], currentBlock, policy) { ready := ready + [pending[k]]; }
    }
    assert pending[..|pending|] == pending;
  }

  lemma {:induction false} ChunkStep(s: Settlements, size: nat, i: nat)
    requires size >= 1 && i < |s|
    ensures i + size < |s| ==> Chunks(s[i..], size) == [s[i..i + size]] + Chunks(s[i + size..], size)
    ensures i + size >= |s| ==> Chunks(s[i..], size) == [s[i..]]
  {
    if i + size < |s| {
      assert s[i..][..size] == s[i..i + size] && s[i..][size..] == s[i + size..];
    }
  }

  method CutIntoChunks(s: Settlements, size: nat) returns (batches: seq<Settlements>)
    requires size >= 1
    ensures batches == Chunks(s, size)
  {
    batches := [];
    var i := 0;
    assert s[0..] == s && [] + Chunks(s, size) == Chunks(s, size);
    while i < |s|
      invariant 0 <= i
      invariant i < |s| ==> Chunks(s, size) == batches + Chunks(s[i..], size)
      invariant i >= |s| ==> Chunks(s, size) == batches
    {
      ChunkStep(s, size, i);
      var end := if i + size < |s| then i + size else |s|;
      ghost var before := batches;
      assert end == |s| ==> s[i..end] == s[i..];
      batches := batches + [s[i..end]];
      i := i + size;
      assert i < |s| ==> before + ([s[end - size..end]] + Chunks(s[i..], size)) == batches + Chunks(s[i..], size);
    }
  }

  method SelectSettlementBatches(pending: Settlements, currentBlock: int, policy: BatchPolicy)
    returns (batches: seq<Settlements>)
    requires policy.maxBatchSize >= 1
    ensures batches == SelectBatches(pending, currentBlock, policy)
    ensures IsSelection(batches, pending, currentBlock, policy)
  {
    SelectionExact(pending, currentBlock, policy);
    var ready := FilterReady(pending, currentBlock, policy);
    ready := SortByExpiry(ready);
    batches := CutIntoChunks(ready, policy.maxBatchSize);
  }

  /** Exactly the settlements that are near expiry or worth closing are chosen, as often as they are pending. */
  lemma {:induction false} ReadyExact(
    pending: Settlements, currentBlock: int, policy: BatchPolicy, x: PendingSettlement)
    ensures multiset(Ready(pending, currentBlock, policy))[x] ==
              if || x.expiryBlock <= currentBlock + policy.closeBeforeExpiryBlocks
                 || policy.minValueToClose <= x.cumulative
              then multiset(pending)[x] else 0
  {
    if pending != [] {
      var n := |pending| - 1;
      ReadyExact(pending[..n], currentBlock, policy, x);
      assert pending == pending[..n] + [pending[n]];
    }
  }

  // ---------- the order ----------

  ghost predicate Ascending(s: Settlements) {
    forall i, j | 0 <= i < j < |s| :: s[i].expiryBlock <= s[j].expiryBlock
  }

  /** The settlements of one expiry, in their order. */
  ghost function Expiring(s: Settlements, e: int): Settlements {
    if s == [] then []
    else
      var n := |s| - 1;
      if s[n].expiryBlock == e then Expiring(s[..n], e) + [s[n]] else Expiring(s[..n], e)
  }

  lemma {:induction false} ExpiringSnoc(s: Settlements, x: PendingSettlement, e: int)
    ensures Expiring(s + [x], e) == if x.expiryBlock == e then Expiring(s, e) + [x] else Expiring(s, e)
  {
    assert (s + [x])[..|s|] == s;
  }

  lemma {:induction false} InsertPermutes(s: Settlements, x: PendingSettlement)
    ensures multiset(Insert(s, x)) == multiset(s) + multiset{x}
  {
    if s != [] && s[|s| - 1].expiryBlock > x.expiryBlock {
      InsertPermutes(s[..|s| - 1], x);
      assert s == s[..|s| - 1] + [s[|s| - 1]];
    }
  }

  lemma {:induction false} InsertMembers(s: Settlements, x: PendingSettlement, k: nat)
    requires k < |Insert(s, x)|
    ensures Insert(s, x)[k] == x || Insert(s, x)[k] in s
  {
    if s != [] && s[|s| - 1].expiryBlock > x.expiryBlock && k < |Insert(s[..|s| - 1], x)| {
      InsertMembers(s[..|s| - 1], x, k);
    }
  }

  lemma {:induction false} InsertAscending(s: Settlements, x: PendingSettlement)
    requires Ascending(s)
    ensures Ascending(Insert(s, x))
  {
    if s != [] && s[|s| - 1].expiryBlock > x.expiryBlock {
      var t, last := s[..|s| - 1], s[|s| - 1];
      InsertAscending(t, x);
      forall k | 0 <= k < |Insert(t, x)| ensures Insert(t, x)[k].expiryBlock <= last.expiryBlock {
        InsertMembers(t, x, k);
      }
    }
  }

  lemma {:induction false} InsertStable(s: Settlements, x: PendingSettlement, e: int)
    ensures Expiring(Insert(s, x), e) == Expiring(s + [x], e)
  {
    if s != [] && s[|s| - 1].expiryBlock > x.expiryBlock {
      var t, last := s[..|s| - 1], s[|s| - 1];
      InsertStable(t, x, e);
      assert s == t + [last];
      ExpiringSnoc(s, x, e);
      ExpiringSnoc(Insert(t, x), last, e);
      ExpiringSnoc(t, last, e);
      ExpiringSnoc(t, x, e);
    }
  }

  /** The order used is the one stable sort by expiry: ascending, a permutation, and settlements of
      one expiry keep their order. */
  lemma {:induction false} SortIsStable(s: Settlements, e: int)
    ensures Ascending(SortByExpiry(s)) && multiset(SortByExpiry(s)) == multiset(s)
    ensures Expiring(SortByExpiry(s), e) == Expiring(s, e)
  {
    if s != [] {
      var t, last := s[..|s| - 1], s[|s| - 1];
      SortIsStable(t, e);
      InsertPermutes(SortByExpiry(t), last);
      InsertAscending(SortByExpiry(t), last);
      InsertStable(SortByExpiry(t), last, e);
      assert s == t + [last];
      ExpiringSnoc(SortByExpiry(t), last, e);
      ExpiringSnoc(t, last, e);
    }
  }

  lemma {:induction false} SnocCancel(s: Settlements, t: Settlements, x: PendingSettlement, y: PendingSettlement)
    requires s + [x] == t + [y]
    ensures s == t && x == y
  {
    assert s == (s + [x])[..|s|] && t == (t + [y])[..|t|];
    assert (s + [x])[|s|] == x && (t + [y])[|t|] == y;
  }

  lemma {:induction false} SameLastExpiry(s: Settlements, t: Settlements)
    requires s != [] && Ascending(s) && Ascending(t) && multiset(s) == multiset(t)
    ensures |t| == |s| && t[|s| - 1].expiryBlock == s[|s| - 1].expiryBlock
  {
    assert |multiset(s)| == |s| && |multiset(t)| == |t|;
    assert s[|s| - 1] in multiset(t) && t[|s| - 1] in multiset(s);
  }

  lemma {:induction false} SameLast(s: Settlements, x: PendingSettlement, t: Settlements, y: PendingSettlement)
    requires x.expiryBlock == y.expiryBlock && Expiring(s + [x], x.expiryBlock) == Expiring(t + [y], x.expiryBlock)
    ensures x == y
  {
    ExpiringSnoc(s, x, x.expiryBlock);
    ExpiringSnoc(t, y, x.expiryBlock);
    SnocCancel(Expiring(s, x.expiryBlock), Expiring(t, x.expiryBlock), x, y);
  }

  lemma {:induction false} SameFront(s: Settlements, t: Settlements, x: PendingSettlement, e: int)
    requires Expiring(s + [x], e) == Expiring(t + [x], e)
    ensures Expiring(s, e) == Expiring(t, e)
  {
    ExpiringSnoc(s, x, e);
    ExpiringSnoc(t, x, e);
    if x.expiryBlock == e {
      SnocCancel(Expiring(s, e), Expiring(t, e), x, x);
    }
  }

  lemma {:induction false} FrontMultiset(s: Settlements)
    requires s != []
    ensures s == s[..|s| - 1] + [s[|s| - 1]] && multiset(s[..|s| - 1]) == multiset(s) - multiset{s[|s| - 1]}
  {
    assert s == s[..|s| - 1] + [s[|s| - 1]];
  }

  /** Two ascending orders of the same settlements that agree within each expiry are the same. */
  lemma {:induction false} StableSortUnique(s: Settlements, t: Settlements)
    requires Ascending(s) && Ascending(t) && multiset(s) == multiset(t)
    requires forall e: int :: Expiring(s, e) == Expiring(t, e)
    ensures s == t
    decreases |s|
  {
    if s == [] {
      assert |multiset(s)| == |multiset(t)|;
    } else {
      var n := |s| - 1;
      SameLastExpiry(s, t);
      FrontMultiset(s);
      FrontMultiset(t);
      SameLast(s[..n], s[n], t[..n], t[n]);
      forall e: int ensures Expiring(s[..n], e) == Expiring(t[..n], e) {
        SameFront(s[..n], t[..n], s[n], e);
      }
      StableSortUnique(s[..n], t[..n]);
    }
  }

  // ---------- the batches ----------

  ghost function Flatten(plan: seq<Settlements>): Settlements {
    if plan == [] then [] else plan[0] + Flatten(plan[1..])
  }

  /** The batches are the sorted settlements, cut into full batches and one last, possibly short. */
  lemma {:induction false} ChunksCover(s: Settlements, size: nat)
    requires size >= 1
    ensures Flatten(Chunks(s, size)) == s
    ensures forall k | 0 <= k < |Chunks(s, size)| :: 0 < |Chunks(s, size)[k]| <= size
    ensures forall k | 0 <= k < |Chunks(s, size)| - 1 :: |Chunks(s, size)[k]| == size
  {
    if |s| > size {
      ChunksCover(s[size..], size);
      var cs := Chunks(s[size..], size);
      assert ([s[..size]] + cs)[1..] == cs;
      assert s == s[..size] + s[size..];
    } else if s != [] {
      assert Flatten([s]) == s + [] by { assert [s][1..] == []; }
    }
  }

  // ---------- the selection as a whole ----------

  predicate NearExpiry(s: PendingSettlement, currentBlock: int, policy: BatchPolicy) {
    s.expiryBlock <= currentBlock + policy.closeBeforeExpiryBlocks
  }

  predicate WorthClosing(s: PendingSettlement, policy: BatchPolicy) {
    policy.minValueToClose <= s.cumulative
  }

  /** The pending settlements of one expiry that are near it or worth closing, in their order. */
  ghost function ToClose(pending: Settlements, currentBlock: int, policy: BatchPolicy, e: int): Settlements {
    if pending == [] then []
    else
      var n := |pending| - 1;
      var before, s := ToClose(pending[..n], currentBlock, policy, e), pending[n];
      if s.expiryBlock == e && (NearExpiry(s, currentBlock, policy) || WorthClosing(s, policy))
      then before + [s] else before
  }

  /** What the relayer promises of its batches: they hold every settlement near expiry or worth closing as
      often as it is pending and no other, by expiry and then as they came, in full batches and one last. */
  ghost predicate IsSelection(
    batches: seq<Settlements>, pending: Settlements, currentBlock: int, policy: BatchPolicy)
  {
    && (forall x :: multiset(Flatten(batches))[x] ==
          if NearExpiry(x, currentBlock, policy) || WorthClosing(x, policy) then multiset(pending)[x] else 0)
    && Ascending(Flatten(batches))
    && (forall e: int :: Expiring(Flatten(batches), e) == ToClose(pending, currentBlock, policy, e))
    && (forall k | 0 <= k < |batches| :: 0 < |batches[k]| <= policy.maxBatchSize)
    && (forall k | 0 <= k < |batches| - 1 :: |batches[k]| == policy.maxBatchSize)
  }

  lemma {:induction false} ReadyInOrder(pending: Settlements, currentBlock: int, policy: BatchPolicy, e: int)
    ensures Expiring(Ready(pending, currentBlock, policy), e) == ToClose(pending, currentBlock, policy, e)
  {
    if pending != [] {
      var n := |pending| - 1;
      ReadyInOrder(pending[..n], currentBlock, policy, e);
      ExpiringSnoc(Ready(pending[..n], currentBlock, policy), pending[n], e);
    }
  }

  /** The relayer's selection keeps the promise. */
  lemma {:induction false} SelectionExact(pending: Settlements, currentBlock: int, policy: BatchPolicy)
    requires policy.maxBatchSize >= 1
    ensures IsSelection(SelectBatches(pending, currentBlock, policy), pending, currentBlock, policy)
  {
    var ready := Ready(pending, currentBlock, policy);
    ChunksCover(SortByExpiry(ready), policy.maxBatchSize);
    SortIsStable(ready, 0);
    forall x ensures multiset(ready)[x] ==
        if NearExpiry(x, currentBlock, policy) || WorthClosing(x, policy) then multiset(pending)[x] else 0
    {
      ReadyExact(pending, currentBlock, policy, x);
    }
    forall e: int ensures Expiring(SortByExpiry(ready), e) == ToClose(pending, currentBlock, policy, e) {
      SortIsStable(ready, e);
      ReadyInOrder(pending, currentBlock, policy, e);
    }
  }

  /** Full batches and one last can be told from their concatenation. */
  lemma {:induction false} FlattenInjective(a: seq<Settlements>, b: seq<Settlements>, size: nat)
    requires size >= 1 && Flatten(a) == Flatten(b)
    requires forall k | 0 <= k < |a| :: 0 < |a[k]| <= size
    requires forall k | 0 <= k < |b| :: 0 < |b[k]| <= size
    requires forall k | 0 <= k < |a| - 1 :: |a[k]| == size
    requires forall k | 0 <= k < |b| - 1 :: |b[k]| == size
    ensures a == b
  {
    if a != [] && b != [] {
      FirstBatch(a, size);
      FirstBatch(b, size);
      assert a[0] == Flatten(a)[..|a[0]|] && b[0] == Flatten(b)[..|b[0]|];
      assert Flatten(a[1..]) == Flatten(a)[|a[0]|..] && Flatten(b[1..]) == Flatten(b)[|b[0]|..];
      FlattenInjective(a[1..], b[1..], size);
      assert a == [a[0]] + a[1..] && b == [b[0]] + b[1..];
    }
  }

  lemma {:induction false} FirstBatch(a: seq<Settlements>, size: nat)
    requires size >= 1 && a != [] && forall k | 0 <= k < |a| :: 0 < |a[k]| <= size
    requires forall k | 0 <= k < |a| - 1 :: |a[k]| == size
    ensures |a[0]| == if |Flatten(a)| < size then |Flatten(a)| else size
  {
    if |a| == 1 { assert Flatten(a[1..]) == []; }
  }

  /** The promise fixes the batches: nothing else keeps it. */
  lemma {:induction false} SelectionIff(
    batches: seq<Settlements>, pending: Settlements, currentBlock: int, policy: BatchPolicy)
    requires policy.maxBatchSize >= 1
    ensures IsSelection(batches, pending, currentBlock, policy) <==>
              batches == SelectBatches(pending, currentBlock, policy)
  {
    var mine := SelectBatches(pending, currentBlock, policy);
    SelectionExact(pending, currentBlock, policy);
    if IsSelection(batches, pending, currentBlock, policy) {
      forall x ensures multiset(Flatten(batches))[x] == multiset(Flatten(mine))[x] {
      }
      assert multiset(Flatten(batches)) == multiset(Flatten(mine));
      StableSortUnique(Flatten(batches), Flatten(mine));
      FlattenInjective(batches, mine, policy.maxBatchSize);
    }
  }

  /** Batch k starts k full batches into the order. */
  lemma {:induction false} ChunkPosition(s: Settlements, size: nat, k: nat, x: PendingSettlement) returns (p: nat)
    requires size >= 1 && k < |Chunks(s, size)| && x in Chunks(s, size)[k]
    ensures k * size <= p < |s| && s[p] == x
  {
    if |s| <= size {
      p :| 0 <= p < |s| && s[p] == x;
    } else if k == 0 {
      p :| 0 <= p < size && s[p] == x;
    } else {
      var q := ChunkPosition(s[size..], size, k - 1, x);
      p := q + size;
      assert (k - 1) * size + size == k * size;
    }
  }

  /** How many settlements expire by block e. */
  ghost function DueBy(s: Settlements, e: int): nat {
    if s == [] then 0 else (if s[0].expiryBlock <= e then 1 else 0) + DueBy(s[1..], e)
  }

  lemma {:induction false} DueByAppend(s: Settlements, t: Settlements, e: int)
    ensures DueBy(s + t, e) == DueBy(s, e) + DueBy(t, e)
  {
    if s == [] {
      assert s + t == t;
    } else {
      DueByAppend(s[1..], t, e);
      assert (s + t)[1..] == s[1..] + t;
    }
  }

  ghost function Without(s: Settlements, j: nat): Settlements
    requires j < |s|
  {
    s[..j] + s[j + 1..]
  }

  lemma {:induction false} DueByWithout(s: Settlements, j: nat, e: int)
    requires j < |s|
    ensures DueBy(s, e) == DueBy(Without(s, j), e) + if s[j].expiryBlock <= e then 1 else 0
  {
    if j == 0 {
      assert Without(s, 0) == s[1..];
    } else {
      DueByWithout(s[1..], j - 1, e);
      assert Without(s, j)[1..] == Without(s[1..], j - 1);
    }
  }

  lemma {:induction false} WithoutMultiset(s: Settlements, j: nat)
    requires j < |s|
    ensures multiset(Without(s, j)) == multiset(s) - multiset{s[j]}
  {
    assert s == s[..j] + [s[j]] + s[j + 1..];
  }

  lemma {:induction false} DueByPermutation(s: Settlements, t: Settlements, e: int)
    requires multiset(s) == multiset(t)
    ensures DueBy(s, e) == DueBy(t, e)
  {
    if s == [] {
      assert |multiset(s)| == |multiset(t)|;
    } else {
      assert s[0] in multiset(t);
      var j :| 0 <= j < |t| && t[j] == s[0];
      WithoutMultiset(s, 0);
      WithoutMultiset(t, j);
      assert Without(s, 0) == s[1..];
      DueByPermutation(s[1..], Without(t, j), e);
      DueByWithout(t, j, e);
    }
  }

  lemma {:induction false} DueByPrefix(s: Settlements, p: nat)
    requires Ascending(s) && p < |s|
    ensures DueBy(s, s[p].expiryBlock) >= p + 1
  {
    DueByAppend(s[..p + 1], s[p + 1..], s[p].expiryBlock);
    assert s == s[..p + 1] + s[p + 1..];
    AllDue(s[..p + 1], s[p].expiryBlock);
  }

  lemma {:induction false} AllDue(s: Settlements, e: int)
    requires forall x | x in s :: x.expiryBlock <= e
    ensures DueBy(s, e) == |s|
  {
    if s != [] { AllDue(s[1..], e); }
  }

  lemma {:induction false} NoneDue(s: Settlements, e: int)
    requires forall x | x in s :: x.expiryBlock > e
    ensures DueBy(s, e) == 0
  {
    if s != [] { NoneDue(s[1..], e); }
  }

  lemma {:induction false} DueByBound(s: Settlements, e: int)
    ensures DueBy(s, e) <= |s|
  {
    if s != [] { DueByBound(s[1..], e); }
  }

  /** A plan submits batch k at block start + k, within the batch size, before every expiry. */
  ghost predicate Feasible(plan: seq<Settlements>, start: int, size: nat) {
    && (forall k | 0 <= k < |plan| :: |plan[k]| <= size)
    && (forall k, x | 0 <= k < |plan| && x in plan[k] :: start + k <= x.expiryBlock)
  }

  lemma {:induction false} FeasibleTail(plan: seq<Settlements>, start: int, size: nat)
    requires plan != [] && Feasible(plan, start, size)
    ensures Feasible(plan[1..], start + 1, size)
  {
    var rest := plan[1..];
    forall k, x: PendingSettlement | 0 <= k < |rest| && x in rest[k] ensures start + 1 + k <= x.expiryBlock {
      assert rest[k] == plan[k + 1];
    }
  }

  ghost function Capacity(blocks: int, size: nat): nat {
    if blocks <= 0 then 0 else blocks * size
  }

  lemma {:induction false} CapacityStep(blocks: int, size: nat)
    ensures Capacity(blocks, size) >= Capacity(blocks - 1, size)
    ensures blocks > 0 ==> Capacity(blocks, size) == Capacity(blocks - 1, size) + size
  {
    assert blocks * size == (blocks - 1) * size + size;
  }

  /** By block e a plan has submitted at most one batch per block from its start. */
  lemma {:induction false} PlanDueBy(plan: seq<Settlements>, start: int, size: nat, e: int)
    requires Feasible(plan, start, size)
    ensures DueBy(Flatten(plan), e) <= Capacity(e - start + 1, size)
    decreases |plan|
  {
    if plan != [] {
      FeasibleTail(plan, start, size);
      PlanDueBy(plan[1..], start + 1, size, e);
      DueByAppend(plan[0], Flatten(plan[1..]), e);
      CapacityStep(e - start + 1, size);
      if e < start {
        NoneDue(plan[0], e);
      } else {
        DueByBound(plan[0], e);
      }
    }
  }

  lemma {:induction false} ProductMonotone(a: int, b: int, size: nat)
    ensures a <= b ==> a * size <= b * size
  {
    if a <= b {
      assert (b - a) * size >= 0;
    }
  }

  lemma {:induction false} LessByProduct(k: int, d: int, size: nat)
    requires k * size < d * size
    ensures k < d
  {
    ProductMonotone(d, k, size);
  }

  lemma {:induction false} MeetsExpiry(
    sorted: Settlements, plan: seq<Settlements>, start: int, size: nat, k: nat, x: PendingSettlement)
    requires size >= 1 && Ascending(sorted) && Feasible(plan, start, size)
    requires multiset(sorted) == multiset(Flatten(plan))
    requires k < |Chunks(sorted, size)| && x in Chunks(sorted, size)[k]
    ensures start + k <= x.expiryBlock
  {
    var p := ChunkPosition(sorted, size, k, x);
    DueByPrefix(sorted, p);
    DueByPermutation(sorted, Flatten(plan), x.expiryBlock);
    PlanDueBy(plan, start, size, x.expiryBlock);
    assert k * size < Capacity(x.expiryBlock - start + 1, size);
    assert k * size >= 0;
    LessByProduct(k, x.expiryBlock - start + 1, size);
  }

  /** Earliest expiry first is optimal: if any plan of the ready settlements, one batch per block,
      meets every expiry, then so does submitting the selected batches one per block. */
  lemma {:induction false} EarliestExpiryOptimal(
    pending: Settlements, currentBlock: int, policy: BatchPolicy, plan: seq<Settlements>)
    requires policy.maxBatchSize >= 1
    requires multiset(Flatten(plan)) == multiset(Ready(pending, currentBlock, policy))
    requires Feasible(plan, currentBlock, policy.maxBatchSize)
    ensures Feasible(SelectBatches(pending, currentBlock, policy), currentBlock, policy.maxBatchSize)
  {
    var size, ready := policy.maxBatchSize, Ready(pending, currentBlock, policy);
    var sorted := SortByExpiry(ready);
    var batches := Chunks(sorted, size);
    SortIsStable(ready, 0);
    ChunksCover(sorted, size);
    forall k, x: PendingSettlement | 0 <= k < |batches| && x in batches[k] ensures currentBlock + k <= x.expiryBlock {
      MeetsExpiry(sorted, plan, currentBlock, size, k, x);
    }
  }

  lemma {:induction false} FlattenLength(plan: seq<Settlements>, size: nat)
    requires forall k | 0 <= k < |plan| :: |plan[k]| <= size
    ensures |Flatten(plan)| <= |plan| * size
  {
    if plan != [] {
      FlattenLength(plan[1..], size);
      assert |plan| * size == (|plan| - 1) * size + size;
    }
  }

  lemma {:induction false} FullBatchesLength(plan: seq<Settlements>, size: nat)
    requires plan != [] && (forall k | 0 <= k < |plan| - 1 :: |plan[k]| == size) && |plan[|plan| - 1]| > 0
    ensures |Flatten(plan)| > (|plan| - 1) * size
  {
    if |plan| == 1 {
      assert plan[1..] == [];
      assert Flatten(plan) == plan[0] + [];
    } else {
      FullBatchesLength(plan[1..], size);
      assert (|plan| - 1) * size == (|plan| - 2) * size + size;
    }
  }

  /** No way of batching the ready settlements within the size uses fewer batches. */
  lemma {:induction false} FewestBatches(
    pending: Settlements, currentBlock: int, policy: BatchPolicy, plan: seq<Settlements>)
    requires policy.maxBatchSize >= 1
    requires multiset(Flatten(plan)) == multiset(Ready(pending, currentBlock, policy))
    requires forall k | 0 <= k < |plan| :: |plan[k]| <= policy.maxBatchSize
    ensures |SelectBatches(pending, currentBlock, policy)| <= |plan|
  {
    var size, ready := policy.maxBatchSize, Ready(pending, currentBlock, policy);
    var sorted := SortByExpiry(ready);
    var batches := Chunks(sorted, size);
    SortIsStable(ready, 0);
    assert |multiset(sorted)| == |sorted| && |multiset(Flatten(plan))| == |Flatten(plan)|;
    ChunksCover(sorted, size);
    FlattenLength(plan, size);
    if batches != [] {
      FullBatchesLength(batches, size);
      LessByProduct(|batches| - 1, |plan|, size);
    }
  }
}
