/** Finite directed graphs, as the set of successors of each node.  A successor that is not
    itself a node is ignored, as a dependency on something absent is. */
module Graphs {
  import opened Sequences

  type Graph<T> = map<T, set<T>>

  ghost predicate Edge<T>(g: Graph<T>, a: T, b: T) {
    a in g && b in g && b in g[a]
  }

  ghost predicate Walk<T>(g: Graph<T>, w: seq<T>) {
    forall i :: 0 <= i < |w| - 1 ==> Edge(g, w[i], w[i + 1])
  }

  /** A closed walk of at least one edge; a self-loop is one. */
  ghost predicate Cycle<T>(g: Graph<T>, w: seq<T>) {
    |w| >= 2 && Walk(g, w) && w[0] == w[|w| - 1]
  }

  ghost predicate Acyclic<T(!new)>(g: Graph<T>) {
    forall w: seq<T> :: !Cycle(g, w)
  }

  /** A numbering that decreases along every edge. */
  ghost predicate Ranks<T>(g: Graph<T>, rank: map<T, int>) {
    && g.Keys <= rank.Keys
    && forall a, b :: a in g && b in g && Edge(g, a, b) ==> rank[b] < rank[a]
  }

  lemma {:induction false} RankDecreases<T>(g: Graph<T>, rank: map<T, int>, w: seq<T>)
    requires Ranks(g, rank) && Walk(g, w) && |w| >= 2
    ensures w[0] in rank && w[|w| - 1] in rank && rank[w[|w| - 1]] < rank[w[0]]
  {
    assert Edge(g, w[0], w[1]);
    if |w| > 2 {
      var tail := w[1..];
      forall i | 0 <= i < |tail| - 1
        ensures Edge(g, tail[i], tail[i + 1])
      {
        assert Edge(g, w[i + 1], w[i + 2]);
      }
      RankDecreases(g, rank, tail);
    }
  }

  lemma {:induction false} RankedIsAcyclic<T(!new)>(g: Graph<T>, rank: map<T, int>)
    requires Ranks(g, rank)
    ensures Acyclic(g)
  {
    forall w: seq<T> | Cycle(g, w)
      ensures false
    {
      RankDecreases(g, rank, w);
    }
  }

  /** A node of `nodes` without a successor in `nodes`. */
  ghost predicate Sink<T>(g: Graph<T>, nodes: set<T>, a: T) {
    a in nodes && forall b :: b in nodes ==> !Edge(g, a, b)
  }

  lemma {:induction false} LongWalk<T>(g: Graph<T>, nodes: set<T>, n: nat) returns (w: seq<T>)
    requires nodes != {} && forall a :: a in nodes ==> !Sink(g, nodes, a)
    ensures |w| == n + 1 && Walk(g, w) && forall x :: x in w ==> x in nodes
  {
    if n == 0 {
      var a :| a in nodes;
      w := [a];
    } else {
      var v := LongWalk(g, nodes, n - 1);
      var last := v[|v| - 1];
      assert last in nodes && !Sink(g, nodes, last);
      var b :| b in nodes && Edge(g, last, b);
      w := v + [b];
      forall i | 0 <= i < |w| - 1
        ensures Edge(g, w[i], w[i + 1])
      {
        if i < |v| - 1 {
          assert Edge(g, v[i], v[i + 1]);
        }
      }
    }
  }

  lemma {:induction false} SinklessHasCycle<T(!new)>(g: Graph<T>, nodes: set<T>)
    requires nodes != {} && forall a :: a in nodes ==> !Sink(g, nodes, a)
    ensures exists w: seq<T> :: Cycle(g, w)
  {
    var w := LongWalk(g, nodes, |nodes|);
    if Distinct(w) {
      DistinctFits(w, nodes);
      assert false;
    } else {
      var i, j :| 0 <= i < j < |w| && w[i] == w[j];
      var c := w[i..j + 1];
      forall k | 0 <= k < |c| - 1
        ensures Edge(g, c[k], c[k + 1])
      {
        assert Edge(g, w[i + k], w[i + k + 1]);
      }
      assert Cycle(g, c);
    }
  }

  /** In an acyclic graph every non-empty set of nodes has a sink. */
  lemma {:induction false} AcyclicHasSink<T(!new)>(g: Graph<T>, nodes: set<T>) returns (a: T)
    requires Acyclic(g) && nodes != {}
    ensures Sink(g, nodes, a)
  {
    if forall x :: x in nodes ==> !Sink(g, nodes, x) {
      SinklessHasCycle(g, nodes);
    }
    a :| a in nodes && Sink(g, nodes, a);
  }
}
