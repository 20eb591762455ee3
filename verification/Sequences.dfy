/** Facts about sequences that several modules share: repetition-free sequences, sums and
    permutations. */
module Sequences {

  ghost predicate Distinct<T>(s: seq<T>) {
    forall i, j :: 0 <= i < j < |s| ==> s[i] != s[j]
  }

  lemma {:induction false} DistinctFits<T>(s: seq<T>, nodes: set<T>)
    requires Distinct(s) && forall x :: x in s ==> x in nodes
    ensures |s| <= |nodes|
  {
    if s != [] {
      var x := s[0];
      assert x !in s[1..];
      DistinctFits(s[1..], nodes - {x});
    }
  }

  lemma {:induction false} CoverFits<T>(s: seq<T>, nodes: set<T>)
    requires forall x :: x in nodes ==> x in s
    ensures |nodes| <= |s|
  {
    if s != [] {
      CoverFits(s[1..], nodes - {s[0]});
      assert nodes - {s[0]} == nodes || nodes == nodes - {s[0]} + {s[0]};
    } else {
      assert nodes == {};
    }
  }

  lemma {:induction false} SubsetSize<T>(x: set<T>, y: set<T>)
    requires x <= y
    ensures |x| <= |y|
  {
    if x != {} {
      var e :| e in x;
      SubsetSize(x - {e}, y - {e});
    }
  }

  lemma {:induction false} OnceEach<T>(s: seq<T>, x: T)
    requires Distinct(s)
    ensures multiset(s)[x] == if x in s then 1 else 0
  {
    if s != [] {
      OnceEach(s[1..], x);
      assert s == [s[0]] + s[1..];
      assert s[0] !in s[1..];
    }
  }

  /** Two repetition-free sequences with the same elements are permutations of each other. */
  lemma {:induction false} SameElements<T>(s: seq<T>, t: seq<T>)
    requires Distinct(s) && Distinct(t)
    requires forall x :: x in s <==> x in t
    ensures multiset(s) == multiset(t)
  {
    forall x
      ensures multiset(s)[x] == multiset(t)[x]
    {
      OnceEach(s, x);
      OnceEach(t, x);
    }
  }

  /** A repetition-free sequence that is as long as the set its elements come from covers it. */
  lemma {:induction false} DistinctCovers<T>(s: seq<T>, all: set<T>, x: T)
    requires Distinct(s) && (forall y :: y in s ==> y in all) && |s| >= |all|
    requires x in all
    ensures x in s
  {
    if x !in s {
      DistinctFits(s, all - {x});
    }
  }

  /** The first `n` natural numbers. */
  ghost function Below(n: nat): (all: set<nat>)
    ensures |all| == n && forall i: nat :: i in all <==> i < n
  {
    if n == 0 then {} else Below(n - 1) + {n - 1}
  }

  // ---- Sums ----

  ghost function SumBy<T>(s: seq<T>, f: T -> real): real {
    if s == [] then 0.0 else SumBy(s[..|s| - 1], f) + f(s[|s| - 1])
  }

  lemma {:induction false} SumBySplit<T>(s: seq<T>, f: T -> real, i: nat)
    requires i < |s|
    ensures SumBy(s, f) == SumBy(s[..i] + s[i + 1..], f) + f(s[i])
  {
    if i == |s| - 1 {
      assert s[..i] + s[i + 1..] == s[..|s| - 1];
    } else {
      var t := s[..|s| - 1];
      SumBySplit(t, f, i);
      var u := s[..i] + s[i + 1..];
      assert u[..|u| - 1] == t[..i] + t[i + 1..];
    }
  }

  lemma {:induction false} RemoveAt<T>(s: seq<T>, i: nat)
    requires i < |s|
    ensures multiset(s[..i] + s[i + 1..]) == multiset(s) - multiset{s[i]}
  {
    assert s == s[..i] + [s[i]] + s[i + 1..];
  }

  lemma {:induction false} SumByPermutation<T>(s: seq<T>, t: seq<T>, f: T -> real)
    requires multiset(s) == multiset(t)
    ensures SumBy(s, f) == SumBy(t, f)
    decreases |s|
  {
    if s == [] {
      assert |multiset(t)| == 0;
    } else {
      var n := |s| - 1;
      assert s[n] in multiset(t);
      var i :| 0 <= i < |t| && t[i] == s[n];
      RemoveAt(s, n);
      RemoveAt(t, i);
      assert s[..n] + s[n + 1..] == s[..n];
      SumByPermutation(s[..n], t[..i] + t[i + 1..], f);
      SumBySplit(t, f, i);
    }
  }

  lemma {:induction false} SumByAgrees<T>(s: seq<T>, f: T -> real, g: T -> real)
    requires forall i :: 0 <= i < |s| ==> f(s[i]) == g(s[i])
    ensures SumBy(s, f) == SumBy(s, g)
  {
    if s != [] {
      SumByAgrees(s[..|s| - 1], f, g);
    }
  }

  lemma {:induction false} SumByMonotone<T>(s: seq<T>, f: T -> real, g: T -> real)
    requires forall i :: 0 <= i < |s| ==> f(s[i]) <= g(s[i])
    ensures SumBy(s, f) <= SumBy(s, g)
  {
    if s != [] {
      SumByMonotone(s[..|s| - 1], f, g);
    }
  }

  // ---- Sorting ----

  ghost predicate SortedBy<T>(s: seq<T>, key: T -> real) {
    forall i, j :: 0 <= i < j < |s| ==> key(s[i]) <= key(s[j])
  }

  function Insert<T>(x: T, s: seq<T>, key: T -> real): seq<T> {
    if s == [] || key(x) <= key(s[0]) then [x] + s else [s[0]] + Insert(x, s[1..], key)
  }

  /** The stable ascending sort by a key. */
  function SortBy<T>(s: seq<T>, key: T -> real): seq<T> {
    if s == [] then [] else Insert(s[0], SortBy(s[1..], key), key)
  }

  lemma {:induction false} InsertCounts<T>(x: T, s: seq<T>, key: T -> real)
    ensures multiset(Insert(x, s, key)) == multiset(s) + multiset{x}
  {
    if s != [] && key(x) > key(s[0]) {
      InsertCounts(x, s[1..], key);
      assert s == [s[0]] + s[1..];
    }
  }

  lemma {:induction false} InsertSorts<T>(x: T, s: seq<T>, key: T -> real)
    requires SortedBy(s, key)
    ensures SortedBy(Insert(x, s, key), key)
  {
    if s != [] && key(x) > key(s[0]) {
      InsertSorts(x, s[1..], key);
      InsertCounts(x, s[1..], key);
      var t := Insert(x, s[1..], key);
      forall i | 0 <= i < |t|
        ensures key(s[0]) <= key(t[i])
      {
        assert t[i] in multiset(t);
        assert t[i] == x || t[i] in s[1..];
      }
    }
  }

  lemma {:induction false} SortByCounts<T>(s: seq<T>, key: T -> real)
    ensures multiset(SortBy(s, key)) == multiset(s)
  {
    if s != [] {
      SortByCounts(s[1..], key);
      InsertCounts(s[0], SortBy(s[1..], key), key);
      assert s == [s[0]] + s[1..];
    }
  }

  lemma {:induction false} SortBySorts<T>(s: seq<T>, key: T -> real)
    ensures SortedBy(SortBy(s, key), key)
  {
    if s != [] {
      SortBySorts(s[1..], key);
      InsertSorts(s[0], SortBy(s[1..], key), key);
    }
  }

  lemma {:induction false} SameMultiset<T>(s: seq<T>, t: seq<T>)
    requires multiset(s) == multiset(t)
    ensures |s| == |t| && forall x :: x in s <==> x in t
  {
    assert |multiset(s)| == |multiset(t)|;
    forall x
      ensures x in s <==> x in t
    {
      assert x in s <==> x in multiset(s);
      assert x in t <==> x in multiset(t);
    }
  }

  /** A permutation of a repetition-free sequence is repetition-free. */
  lemma {:induction false} PermutedDistinct<T>(s: seq<T>, t: seq<T>)
    requires Distinct(s) && multiset(s) == multiset(t)
    ensures Distinct(t)
  {
    forall i, j | 0 <= i < j < |t|
      ensures t[i] != t[j]
    {
      OnceEach(s, t[i]);
      if t[i] == t[j] {
        TwiceCounted(t, i, j);
      }
    }
  }

  lemma {:induction false} TwiceCounted<T>(t: seq<T>, i: nat, j: nat)
    requires i < j < |t| && t[i] == t[j]
    ensures multiset(t)[t[i]] >= 2
  {
    assert t == t[..j] + [t[j]] + t[j + 1..];
    assert t[i] == t[..j][i] && t[i] in t[..j];
    assert multiset(t) == multiset(t[..j]) + multiset{t[j]} + multiset(t[j + 1..]);
    assert multiset(t[..j])[t[i]] > 0;
  }
}
