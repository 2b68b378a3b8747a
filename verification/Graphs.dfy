/** Directed graphs given by successor lists, and the walks through them. */
module Graphs {
  import opened Sequences

  type Id = string

  type Graph = map<Id, seq<Id>>

  function Succ(g: Graph, x: Id): seq<Id> {
    if x in g then g[x] else []
  }

  /** A nonempty sequence of nodes, each a successor of the one before it. */
  ghost predicate Walk(g: Graph, p: seq<Id>) {
    |p| > 0 && forall i :: 0 <= i < |p| - 1 ==> p[i + 1] in Succ(g, p[i])
  }

  /** No node but the last is repeated or already in `visited`. */
  ghost predicate NearlySimple(visited: set<Id>, p: seq<Id>)
    requires |p| > 0
  {
    Distinct(p[..|p| - 1]) && forall x :: x in p[..|p| - 1] ==> x !in visited
  }

  ghost predicate WalkBetween(g: Graph, a: Id, b: Id, p: seq<Id>) {
    Walk(g, p) && |p| >= 2 && p[0] == a && p[|p| - 1] == b
  }

  /** `b` can be reached from `a` over one or more edges. */
  ghost predicate Reachable(g: Graph, a: Id, b: Id) {
    exists p :: WalkBetween(g, a, b, p)
  }

  /** No cycle can be entered by walking from `t`. */
  ghost predicate AcyclicFrom(g: Graph, t: Id) {
    forall x :: x == t || Reachable(g, t, x) ==> !Reachable(g, x, x)
  }

  /** The tail of a nearly simple walk is nearly simple once its head counts as visited. */
  lemma NearlySimpleTail(g: Graph, visited: set<Id>, p: seq<Id>)
    requires |p| >= 2
    ensures Walk(g, p) && NearlySimple(visited, p)
       <==> p[0] !in visited && p[1] in Succ(g, p[0])
            && Walk(g, p[1..]) && NearlySimple(visited + {p[0]}, p[1..])
  {
    var q := p[1..];
    var front, rest := p[..|p| - 1], q[..|q| - 1];
    assert front == [p[0]] + rest;
    if Walk(g, p) && NearlySimple(visited, p) {
      assert front[0] == p[0];
      forall i | 0 <= i < |q| - 1
        ensures q[i + 1] in Succ(g, q[i])
      {
        assert p[(i + 1) + 1] in Succ(g, p[i + 1]);
      }
      forall x | x in rest
        ensures x !in visited + {p[0]}
      {
        var i :| 0 <= i < |rest| && rest[i] == x;
        assert front[i + 1] == x && front[0] != front[i + 1];
      }
      forall i, j | 0 <= i < j < |rest|
        ensures rest[i] != rest[j]
      {
        assert front[i + 1] != front[j + 1];
      }
      assert p[0 + 1] in Succ(g, p[0]);
    }
    if p[0] !in visited && p[1] in Succ(g, p[0]) && Walk(g, q) && NearlySimple(visited + {p[0]}, q) {
      forall i | 0 <= i < |p| - 1
        ensures p[i + 1] in Succ(g, p[i])
      {
        if i > 0 {
          assert q[(i - 1) + 1] in Succ(g, q[i - 1]);
        }
      }
      forall i, j | 0 <= i < j < |front|
        ensures front[i] != front[j]
      {
        assert front[j] == rest[j - 1] && front[j] in rest;
        if i > 0 {
          assert rest[i - 1] != rest[j - 1];
        }
      }
    }
  }

  /** Cutting the loops out of a walk leaves a nearly simple one with the same ends. */
  lemma {:induction false} Shorten(g: Graph, a: Id, b: Id, p: seq<Id>) returns (q: seq<Id>)
    requires WalkBetween(g, a, b, p)
    ensures WalkBetween(g, a, b, q) && NearlySimple({}, q)
    decreases |p|
  {
    var front := p[..|p| - 1];
    if Distinct(front) {
      q := p;
    } else {
      var i, j :| 0 <= i < j < |front| && front[i] == front[j];
      var r := p[..i] + p[j..];
      assert WalkBetween(g, a, b, r) by {
        forall k | 0 <= k < |r| - 1
          ensures r[k + 1] in Succ(g, r[k])
        {
          if k < i {
            assert p[k + 1] in Succ(g, p[k]);
          } else {
            assert p[(k - i + j) + 1] in Succ(g, p[k - i + j]);
          }
        }
      }
      q := Shorten(g, a, b, r);
    }
  }

  /** Two walks that meet make one walk. */
  lemma Join(g: Graph, p: seq<Id>, q: seq<Id>)
    requires Walk(g, p) && Walk(g, q) && p[|p| - 1] == q[0]
    ensures Walk(g, p + q[1..])
  {
    var r := p + q[1..];
    forall k | 0 <= k < |r| - 1
      ensures r[k + 1] in Succ(g, r[k])
    {
      if k < |p| - 1 {
        assert p[k + 1] in Succ(g, p[k]);
      } else {
        assert q[(k - |p| + 1) + 1] in Succ(g, q[k - |p| + 1]);
      }
    }
  }

  /** A stretch of a walk is a walk. */
  lemma Stretch(g: Graph, p: seq<Id>, i: nat, j: nat)
    requires Walk(g, p) && i < j <= |p|
    ensures Walk(g, p[i..j])
  {
    forall k | 0 <= k < j - i - 1
      ensures p[i..j][k + 1] in Succ(g, p[i..j][k])
    {
      assert p[(i + k) + 1] in Succ(g, p[i + k]);
    }
  }

  /** Where no cycle can be entered, every walk visits distinct nodes. */
  lemma AcyclicWalksAreDistinct(g: Graph, t: Id, p: seq<Id>)
    requires AcyclicFrom(g, t) && Walk(g, p) && p[0] == t
    ensures Distinct(p)
  {
    forall i, j | 0 <= i < j < |p|
      ensures p[i] != p[j]
    {
      if p[i] == p[j] {
        Stretch(g, p, i, j + 1);
        assert WalkBetween(g, p[i], p[i], p[i..j + 1]);
        Stretch(g, p, 0, i + 1);
        assert i > 0 ==> WalkBetween(g, t, p[i], p[0..i + 1]);
        assert Reachable(g, p[i], p[i]);
        assert false;
      }
    }
  }

  /** Once a cycle can be entered, walks of every length start at `t`. */
  lemma {:induction false} Pump(g: Graph, prefix: seq<Id>, loop: seq<Id>, n: nat) returns (p: seq<Id>)
    requires Walk(g, prefix) && Walk(g, loop) && |loop| >= 2
    requires prefix[|prefix| - 1] == loop[0] == loop[|loop| - 1]
    ensures Walk(g, p) && p[0] == prefix[0] && |p| >= n && p[|p| - 1] == loop[0]
    decreases n
  {
    if n == 0 {
      p := prefix;
    } else {
      var q := Pump(g, prefix, loop, n - 1);
      Join(g, q, loop);
      p := q + loop[1..];
    }
  }
}
