/** Counting facts about families of disjoint pairs. They are what turns "nothing more can be
    matched" into "no other family of matches is larger". */
module Pairings {

  /** No pair joins an element to itself, and no two pairs share an element. */
  ghost predicate Disjoint<T(!new)>(f: set<(T, T)>) {
    && (forall p | p in f :: p.0 != p.1)
    && (forall p, q | p in f && q in f && p != q :: p.0 != q.0 && p.0 != q.1 && p.1 != q.1)
  }

  ghost function Ends<T>(f: set<(T, T)>): set<T> {
    (set p | p in f :: p.0) + (set p | p in f :: p.1)
  }

  lemma {:induction false} EndsCount<T(!new)>(f: set<(T, T)>)
    requires Disjoint(f)
    ensures |Ends(f)| == 2 * |f|
  {
    if f == {} {
      assert Ends(f) == {};
    } else {
      var p :| p in f;
      var g := f - {p};
      EndsCount(g);
      EndsSplit(f, p);
      assert |{p.0, p.1}| == 2;
    }
  }

  lemma {:induction false} EndsSplit<T(!new)>(f: set<(T, T)>, p: (T, T))
    requires Disjoint(f) && p in f
    ensures Ends(f) == Ends(f - {p}) + {p.0, p.1}
    ensures Ends(f - {p}) !! {p.0, p.1}
  {
    assert f == (f - {p}) + {p};
    assert p.0 !in Ends(f - {p}) && p.1 !in Ends(f - {p});
  }

  /** An injection into a set bounds the size of its domain. */
  lemma {:induction false} InjectionCount<A(!new), B(!new)>(s: set<A>, t: set<B>, f: A -> B)
    requires forall a | a in s :: f(a) in t
    requires forall a, b | a in s && b in s && a != b :: f(a) != f(b)
    ensures |s| <= |t|
  {
    if s != {} {
      var a :| a in s;
      InjectionCount(s - {a}, t - {f(a)}, f);
    }
  }

  lemma {:induction false} SubsetCount<A>(s: set<A>, t: set<A>)
    requires s <= t
    ensures |s| <= |t|
  {
    if s != {} {
      var a :| a in s;
      SubsetCount(s - {a}, t - {a});
    }
  }

  /** A sequence without repetitions has as many elements as its set of elements. */
  lemma {:induction false} NoDuplicatesCount<A>(s: seq<A>)
    requires forall i, j | 0 <= i < j < |s| :: s[i] != s[j]
    ensures |(set x | x in s)| == |s|
  {
    if s == [] {
      assert (set x | x in s) == {};
    } else {
      var t := s[..|s| - 1];
      NoDuplicatesCount(t);
      assert s == t + [s[|s| - 1]];
      assert (set x | x in s) == (set x | x in t) + {s[|s| - 1]};
      assert s[|s| - 1] !in t;
    }
  }
}
