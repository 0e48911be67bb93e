/** The order in which plain sort() puts strings, and the sorted form of a list of strings. */
module StringOrder {

  /** Lexicographic order by character code. */
  predicate Leq(a: string, b: string) {
    a == "" || (b != "" && (a[0] < b[0] || (a[0] == b[0] && Leq(a[1..], b[1..]))))
  }

  lemma {:induction false} LeqTotal(a: string, b: string)
    ensures Leq(a, b) || Leq(b, a)
  {
    if a != "" && b != "" && a[0] == b[0] {
      LeqTotal(a[1..], b[1..]);
    }
  }

  lemma {:induction false} LeqAntisymmetric(a: string, b: string)
    requires Leq(a, b) && Leq(b, a)
    ensures a == b
  {
    if a != "" && b != "" {
      LeqAntisymmetric(a[1..], b[1..]);
      assert a == [a[0]] + a[1..] && b == [b[0]] + b[1..];
    }
  }

  lemma {:induction false} LeqTransitive(a: string, b: string, c: string)
    requires Leq(a, b) && Leq(b, c)
    ensures Leq(a, c)
  {
    if a != "" && a[0] == b[0] == c[0] {
      LeqTransitive(a[1..], b[1..], c[1..]);
    }
  }

  ghost predicate Sorted(s: seq<string>) {
    forall i, j | 0 <= i < j < |s| :: Leq(s[i], s[j])
  }

  function Insert(s: seq<string>, x: string): seq<string> {
    if s == [] || Leq(x, s[0]) then [x] + s else [s[0]] + Insert(s[1..], x)
  }

  function Sort(s: seq<string>): seq<string> {
    if s == [] then [] else Insert(Sort(s[1..]), s[0])
  }

  lemma {:induction false} InsertPermutes(s: seq<string>, x: string)
    ensures multiset(Insert(s, x)) == multiset(s) + multiset{x}
  {
    if s != [] && !Leq(x, s[0]) {
      InsertPermutes(s[1..], x);
      assert s == [s[0]] + s[1..];
    }
  }

  lemma {:induction false} InsertSorted(s: seq<string>, x: string)
    requires Sorted(s)
    ensures Sorted(Insert(s, x))
  {
    if s != [] {
      if Leq(x, s[0]) {
        forall i | 0 <= i < |s| ensures Leq(x, s[i]) {
          if i > 0 { LeqTransitive(x, s[0], s[i]); }
        }
      } else {
        InsertSorted(s[1..], x);
        InsertPermutes(s[1..], x);
        LeqTotal(x, s[0]);
        forall y | y in Insert(s[1..], x) ensures Leq(s[0], y) {
          assert y in multiset(Insert(s[1..], x));
          assert y in s[1..] || y == x;
        }
      }
    }
  }

  lemma {:induction false} SortSorts(s: seq<string>)
    ensures Sorted(Sort(s)) && multiset(Sort(s)) == multiset(s)
  {
    if s != [] {
      SortSorts(s[1..]);
      InsertSorted(Sort(s[1..]), s[0]);
      InsertPermutes(Sort(s[1..]), s[0]);
      assert s == [s[0]] + s[1..];
    }
  }

  lemma {:induction false} SameFirst(s: seq<string>, t: seq<string>)
    requires s != [] && Sorted(s) && Sorted(t) && multiset(s) == multiset(t)
    ensures t != [] && s[0] == t[0]
  {
    assert s[0] in multiset(t);
    assert t[0] in multiset(s);
    LeqTotal(s[0], s[0]);
    LeqTotal(t[0], t[0]);
    assert Leq(s[0], t[0]) && Leq(t[0], s[0]);
    LeqAntisymmetric(s[0], t[0]);
  }

  lemma {:induction false} SortedUnique(s: seq<string>, t: seq<string>)
    requires Sorted(s) && Sorted(t) && multiset(s) == multiset(t)
    ensures s == t
  {
    if s == [] {
      assert |multiset(s)| == |multiset(t)|;
    } else {
      SameFirst(s, t);
      assert s == [s[0]] + s[1..] && t == [t[0]] + t[1..];
      assert multiset(s[1..]) == multiset(s) - multiset{s[0]} && multiset(t[1..]) == multiset(t) - multiset{t[0]};
      SortedUnique(s[1..], t[1..]);
    }
  }

  /** Two lists have the same sorted form exactly when they are permutations of each other. */
  lemma {:induction false} SortCanonical(s: seq<string>, t: seq<string>)
    ensures Sort(s) == Sort(t) <==> multiset(s) == multiset(t)
  {
    SortSorts(s);
    SortSorts(t);
    if multiset(s) == multiset(t) {
      SortedUnique(Sort(s), Sort(t));
    }
  }

  ghost predicate LessAt(a: string, b: string, k: nat) {
    k < |a| && k < |b| && a[..k] == b[..k] && a[k] < b[k]
  }

  lemma {:induction false} FirstAgrees(a: string, b: string)
    requires a != "" && b != "" && a[0] == b[0]
    ensures a <= b <==> a[1..] <= b[1..]
    ensures (exists k: nat :: LessAt(a, b, k)) <==> exists k: nat :: LessAt(a[1..], b[1..], k)
  {
    if k: nat :| LessAt(a, b, k) {
      assert k > 0 && a[1..][..k - 1] == a[..k][1..] && b[1..][..k - 1] == b[..k][1..];
      assert LessAt(a[1..], b[1..], k - 1);
    }
    if k: nat :| LessAt(a[1..], b[1..], k) {
      assert a[..k + 1] == [a[0]] + a[1..][..k] && b[..k + 1] == [b[0]] + b[1..][..k];
      assert LessAt(a, b, k + 1);
    }
    assert a == [a[0]] + a[1..] && b == [b[0]] + b[1..];
  }

  /** The order of two strings is that of their first different characters; a beginning comes first. */
  lemma {:induction false} LeqExact(a: string, b: string)
    ensures Leq(a, b) <==> a <= b || exists k: nat :: LessAt(a, b, k)
  {
    if a != "" && b != "" {
      LeqExact(a[1..], b[1..]);
      if a[0] == b[0] {
        FirstAgrees(a, b);
      } else {
        assert a[0] < b[0] ==> LessAt(a, b, 0);
        assert forall k: nat | LessAt(a, b, k) :: k == 0 || a[..k][0] == b[..k][0];
      }
    }
  }
}
