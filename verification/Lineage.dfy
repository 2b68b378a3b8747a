/** Agent lineage: call trees, blast radius, critical paths and ancestor chains. */
module Lineage {
  import opened Graphs
  import opened Wrappers
  import opened Sequences

  datatype Edge = Edge(parent: Id, child: Id, kind: string)

  datatype AgentRecord = AgentRecord(agentId: Id, parentId: Option<Id>)

  type Registry = map<Id, AgentRecord>

  /** A call tree node; a node met again on its own path has no record, edges or children. */
  datatype Tree = Tree(agent: Id, record: Option<AgentRecord>, outgoing: seq<Edge>, children: seq<Branch>)

  datatype Branch = Branch(id: Id, node: Tree)

  datatype Task = Task(taskId: Id, dependsOn: seq<Id>)

  // ---------- the edge list as a graph ----------

  function Outgoing(edges: seq<Edge>, id: Id): seq<Edge> {
    if edges == [] then [] else
      var front := Outgoing(edges[..|edges| - 1], id);
      var last := edges[|edges| - 1];
      if last.parent == id then front + [last] else front
  }

  /** The distinct children of a list of edges, in order of first appearance. */
  function Kids(out: seq<Edge>): (kids: seq<Id>)
    ensures Distinct(kids)
    ensures forall x :: x in kids <==> exists e :: e in out && e.child == x
  {
    if out == [] then [] else
      var front := Kids(out[..|out| - 1]);
      var last := out[|out| - 1];
      assert out == out[..|out| - 1] + [last];
      if last.child in front then front else front + [last.child]
  }

  lemma {:induction false} OutgoingMembers(edges: seq<Edge>, id: Id, e: Edge)
    ensures e in Outgoing(edges, id) <==> e in edges && e.parent == id
  {
    if edges != [] {
      OutgoingMembers(edges[..|edges| - 1], id, e);
      assert edges == edges[..|edges| - 1] + [edges[|edges| - 1]];
    }
  }

  ghost function Adjacency(edges: seq<Edge>): Graph {
    map x | x in (set e | e in edges :: e.parent) :: Kids(Outgoing(edges, x))
  }

  lemma AdjacencyIsEdges(edges: seq<Edge>, x: Id, y: Id)
    ensures y in Succ(Adjacency(edges), x) <==> exists e :: e in edges && e.parent == x && e.child == y
    ensures Succ(Adjacency(edges), x) == Kids(Outgoing(edges, x))
  {
    forall e ensures e in Outgoing(edges, x) <==> e in edges && e.parent == x {
      OutgoingMembers(edges, x, e);
    }
    if x !in Adjacency(edges) {
      assert Outgoing(edges, x) == [];
    }
  }

  // ---------- the call tree ----------

  function Record(agents: Registry, id: Id): Option<AgentRecord> {
    if id in agents then Some(agents[id]) else None
  }

  ghost function Subtree(agents: Registry, edges: seq<Edge>, id: Id, visited: set<Id>): Tree
    decreases Adjacency(edges).Keys - visited, 1, 0
  {
    if id in visited then Tree(id, None, [], []) else
      var out := Outgoing(edges, id);
      AdjacencyIsEdges(edges, id, id);
      Tree(id, Record(agents, id), out,
           if Kids(out) == [] then [] else Branches(agents, edges, Kids(out), visited + {id}))
  }

  ghost function Branches(agents: Registry, edges: seq<Edge>, kids: seq<Id>, visited: set<Id>): (bs: seq<Branch>)
    ensures |bs| == |kids|
    decreases Adjacency(edges).Keys - visited, 2, |kids|
  {
    if kids == [] then [] else
      var last := kids[|kids| - 1];
      Branches(agents, edges, kids[..|kids| - 1], visited) + [Branch(last, Subtree(agents, edges, last, visited))]
  }

  lemma SubtreeUnfolds(agents: Registry, edges: seq<Edge>, id: Id, visited: set<Id>)
    requires id !in visited
    ensures var out := Outgoing(edges, id);
      Subtree(agents, edges, id, visited)
      == Tree(id, Record(agents, id), out, Branches(agents, edges, Kids(out), visited + {id}))
    ensures Outgoing(edges, id) != [] ==> id in Adjacency(edges).Keys
  {
    AdjacencyIsEdges(edges, id, id);
    var out := Outgoing(edges, id);
    if out != [] {
      assert out[0] in out;
      assert out[0].child in Kids(out);
    }
  }

  lemma {:induction false} BranchAt(agents: Registry, edges: seq<Edge>, kids: seq<Id>, visited: set<Id>, k: nat)
    requires k < |kids|
    ensures Branches(agents, edges, kids, visited)[k] == Branch(kids[k], Subtree(agents, edges, kids[k], visited))
  {
    if k < |kids| - 1 {
      BranchAt(agents, edges, kids[..|kids| - 1], visited, k);
    }
  }

  /** Assigning a key of a dictionary: in place when the key is there, at the end when it is new. */
  function Put(bs: seq<Branch>, b: Branch): seq<Branch> {
    if bs == [] then [b]
    else if bs[0].id == b.id then [b] + bs[1..]
    else [bs[0]] + Put(bs[1..], b)
  }

  lemma {:induction false} PutEffect(bs: seq<Branch>, b: Branch)
    ensures (forall k :: 0 <= k < |bs| ==> bs[k].id != b.id) ==> Put(bs, b) == bs + [b]
    ensures b in bs && (forall k :: 0 <= k < |bs| && bs[k].id == b.id ==> bs[k] == b) ==> Put(bs, b) == bs
  {
    if bs != [] {
      PutEffect(bs[1..], b);
    }
  }

  /** Putting the subtree of one more outgoing edge gives the branches of the longer edge list. */
  lemma PutBranch(agents: Registry, edges: seq<Edge>, out: seq<Edge>, e: Edge, visited: set<Id>)
    ensures Put(Branches(agents, edges, Kids(out), visited), Branch(e.child, Subtree(agents, edges, e.child, visited)))
         == Branches(agents, edges, Kids(out + [e]), visited)
  {
    var kids, b := Kids(out), Branch(e.child, Subtree(agents, edges, e.child, visited));
    var bs := Branches(agents, edges, kids, visited);
    assert (out + [e])[..|out|] == out;
    forall k | 0 <= k < |kids|
      ensures bs[k] == Branch(kids[k], Subtree(agents, edges, kids[k], visited))
    {
      BranchAt(agents, edges, kids, visited, k);
    }
    PutEffect(bs, b);
    if e.child in kids {
      var k :| 0 <= k < |kids| && kids[k] == e.child;
      assert bs[k] == b;
    } else {
      assert (kids + [e.child])[..|kids|] == kids;
    }
  }

  ghost function Count(bs: seq<Branch>): nat {
    if bs == [] then 0 else
      var last := bs[|bs| - 1];
      Count(bs[..|bs| - 1]) + 1 + Count(last.node.children)
  }

  ghost function Collected(bs: seq<Branch>): (ids: seq<Id>) {
    if bs == [] then [] else
      var last := bs[|bs| - 1];
      Collected(bs[..|bs| - 1]) + [last.id] + Collected(last.node.children)
  }

  // ---------- node paths of a tree ----------

  ghost function Prepend(x: Id, ps: seq<seq<Id>>): (qs: seq<seq<Id>>)
    ensures |qs| == |ps| && forall k :: 0 <= k < |qs| ==> qs[k] == [x] + ps[k]
  {
    seq(|ps|, k requires 0 <= k < |ps| => [x] + ps[k])
  }

  /** The paths from the root `x` to each node below it, in the order the nodes are collected. */
  ghost function NodePaths(x: Id, bs: seq<Branch>): (ps: seq<seq<Id>>)
    ensures forall k :: 0 <= k < |ps| ==> |ps[k]| >= 2
    decreases bs
  {
    if bs == [] then [] else
      var last := bs[|bs| - 1];
      NodePaths(x, bs[..|bs| - 1]) + [[x, last.id]] + Prepend(x, NodePaths(last.id, last.node.children))
  }

  /** Path k ends in node k. */
  ghost predicate EndIn(ps: seq<seq<Id>>, ids: seq<Id>) {
    |ps| == |ids| && forall k :: 0 <= k < |ps| ==> |ps[k]| >= 1 && ps[k][|ps[k]| - 1] == ids[k]
  }

  lemma EndsJoin(ps: seq<seq<Id>>, ids: seq<Id>, qs: seq<seq<Id>>, jds: seq<Id>)
    requires EndIn(ps, ids) && EndIn(qs, jds)
    ensures EndIn(ps + qs, ids + jds)
  {
  }

  lemma {:induction false} PathsFollowNodes(x: Id, bs: seq<Branch>)
    ensures EndIn(NodePaths(x, bs), Collected(bs)) && Count(bs) == |Collected(bs)|
    decreases bs
  {
    if bs != [] {
      var last := bs[|bs| - 1];
      var below := NodePaths(last.id, last.node.children);
      PathsFollowNodes(x, bs[..|bs| - 1]);
      PathsFollowNodes(last.id, last.node.children);
      EndsJoin(NodePaths(x, bs[..|bs| - 1]), Collected(bs[..|bs| - 1]), [[x, last.id]], [last.id]);
      assert EndIn(Prepend(x, below), Collected(last.node.children));
      EndsJoin(NodePaths(x, bs[..|bs| - 1]) + [[x, last.id]], Collected(bs[..|bs| - 1]) + [last.id],
               Prepend(x, below), Collected(last.node.children));
    }
  }

  lemma PrependMembers(x: Id, ps: seq<seq<Id>>, p: seq<Id>)
    ensures p in Prepend(x, ps) <==> |p| >= 1 && p[0] == x && p[1..] in ps
  {
    if p in Prepend(x, ps) {
      var k :| 0 <= k < |ps| && [x] + ps[k] == p;
      assert p[1..] == ps[k];
    }
    if |p| >= 1 && p[0] == x && p[1..] in ps {
      var k :| 0 <= k < |ps| && ps[k] == p[1..];
      assert Prepend(x, ps)[k] == p;
    }
  }

  lemma {:induction false} PathMembers(x: Id, bs: seq<Branch>, p: seq<Id>)
    ensures p in NodePaths(x, bs) <==>
      |p| >= 2 && p[0] == x && exists b :: b in bs && b.id == p[1] && OnBranch(b, p[1..])
    decreases bs
  {
    if bs != [] {
      var front, last := bs[..|bs| - 1], bs[|bs| - 1];
      assert bs == front + [last];
      PathMembers(x, front, p);
      var below := NodePaths(last.id, last.node.children);
      PrependMembers(x, below, p);
      if |p| >= 2 {
        PathMembers(last.id, last.node.children, p[1..]);
        assert p == [x, last.id] <==> |p| == 2 && p[0] == x && p[1] == last.id;
      }
    }
  }

  ghost predicate OnBranch(b: Branch, q: seq<Id>) {
    |q| == 1 || q in NodePaths(b.id, b.node.children)
  }

  ghost predicate DistinctBranches(bs: seq<Branch>) {
    (forall i, j :: 0 <= i < j < |bs| ==> bs[i].id != bs[j].id) &&
    forall b :: b in bs ==> DistinctBranches(b.node.children)
  }

  lemma {:induction false} PathsAreDistinct(x: Id, bs: seq<Branch>)
    requires DistinctBranches(bs)
    ensures Distinct(NodePaths(x, bs))
    decreases bs
  {
    if bs != [] {
      var front, last := bs[..|bs| - 1], bs[|bs| - 1];
      PathsAreDistinct(x, front);
      PathsAreDistinct(last.id, last.node.children);
      var ps, below := NodePaths(x, front), NodePaths(last.id, last.node.children);
      forall p | p in ps ensures p[1] != last.id {
        PathMembers(x, front, p);
      }
      forall q | q in below ensures q[0] == last.id {
        PathMembers(last.id, last.node.children, q);
      }
      var tail := Prepend(x, below);
      forall i, j | 0 <= i < j < |tail| ensures tail[i] != tail[j] {
        assert tail[i][1..] == below[i] && tail[j][1..] == below[j];
      }
      forall k | 0 <= k < |tail| ensures tail[k][1] == last.id && |tail[k]| >= 3 {
        assert below[k] in below;
      }
      forall k | 0 <= k < |ps| ensures ps[k][1] != last.id {
        assert ps[k] in ps;
      }
    }
  }

  lemma {:induction false} SubtreeBranchesDistinct(agents: Registry, edges: seq<Edge>, id: Id, visited: set<Id>)
    ensures DistinctBranches(Subtree(agents, edges, id, visited).children)
    decreases Adjacency(edges).Keys - visited
  {
    var out := Outgoing(edges, id);
    if id !in visited && Kids(out) != [] {
      AdjacencyIsEdges(edges, id, id);
      SubtreeChildren(agents, edges, id, visited);
      forall x | x in Kids(out)
        ensures DistinctBranches(Subtree(agents, edges, x, visited + {id}).children)
      {
        SubtreeBranchesDistinct(agents, edges, x, visited + {id});
      }
    }
  }

  // ---------- what the tree holds ----------

  ghost predicate TreePath(edges: seq<Edge>, id: Id, visited: set<Id>, p: seq<Id>) {
    |p| >= 2 && p[0] == id && Walk(Adjacency(edges), p) && NearlySimple(visited, p)
  }

  lemma SubtreeChildren(agents: Registry, edges: seq<Edge>, id: Id, visited: set<Id>)
    requires id !in visited
    ensures var bs, kids := Subtree(agents, edges, id, visited).children, Succ(Adjacency(edges), id);
      |bs| == |kids| &&
      forall k :: 0 <= k < |bs| ==> bs[k] == Branch(kids[k], Subtree(agents, edges, kids[k], visited + {id}))
  {
    AdjacencyIsEdges(edges, id, id);
    var kids := Succ(Adjacency(edges), id);
    forall k | 0 <= k < |kids|
      ensures Branches(agents, edges, kids, visited + {id})[k]
           == Branch(kids[k], Subtree(agents, edges, kids[k], visited + {id}))
    {
      BranchAt(agents, edges, kids, visited + {id}, k);
    }
  }

  /** The paths of the call tree are exactly the walks that repeat no node before their last. */
  lemma {:induction false} PathsAreWalks(agents: Registry, edges: seq<Edge>, id: Id, visited: set<Id>, p: seq<Id>)
    ensures p in NodePaths(id, Subtree(agents, edges, id, visited).children) <==> TreePath(edges, id, visited, p)
    decreases |p|
  {
    var bs := Subtree(agents, edges, id, visited).children;
    PathMembers(id, bs, p);
    if |p| >= 2 && p[0] == id {
      var g, q := Adjacency(edges), p[1..];
      NearlySimpleTail(g, visited, p);
      if id !in visited {
        SubtreeChildren(agents, edges, id, visited);
        var kids := Succ(g, id);
        PathsAreWalks(agents, edges, p[1], visited + {id}, q);
        assert |p| == 2 ==> Walk(g, q) && NearlySimple(visited + {id}, q);
        assert |p| > 2 ==>
          (TreePath(edges, p[1], visited + {id}, q) <==> Walk(g, q) && NearlySimple(visited + {id}, q));
        if p[1] in kids {
          var k :| 0 <= k < |kids| && kids[k] == p[1];
          assert bs[k].id == p[1];
        }
      }
    }
  }

  /** Every walk of the tree has its place, where its last node is collected. */
  lemma PathPlace(agents: Registry, edges: seq<Edge>, root: Id, p: seq<Id>) returns (k: nat)
    requires TreePath(edges, root, {}, p)
    ensures var bs := Subtree(agents, edges, root, {}).children;
      k < |NodePaths(root, bs)| == |Collected(bs)| && NodePaths(root, bs)[k] == p && Collected(bs)[k] == p[|p| - 1]
  {
    var bs := Subtree(agents, edges, root, {}).children;
    PathsAreWalks(agents, edges, root, {}, p);
    PathsFollowNodes(root, bs);
    k :| 0 <= k < |NodePaths(root, bs)| && NodePaths(root, bs)[k] == p;
  }

  lemma PlacePath(agents: Registry, edges: seq<Edge>, root: Id, k: nat) returns (p: seq<Id>)
    requires k < |Collected(Subtree(agents, edges, root, {}).children)|
    ensures TreePath(edges, root, {}, p)
    ensures var bs := Subtree(agents, edges, root, {}).children;
      k < |NodePaths(root, bs)| && NodePaths(root, bs)[k] == p && Collected(bs)[k] == p[|p| - 1]
  {
    var bs := Subtree(agents, edges, root, {}).children;
    PathsFollowNodes(root, bs);
    assert EndIn(NodePaths(root, bs), Collected(bs));
    p := NodePaths(root, bs)[k];
    assert p in NodePaths(root, bs);
    PathsAreWalks(agents, edges, root, {}, p);
  }

  /** The affected agents are exactly those reachable over one or more edges, cycles included. */
  lemma AffectedAreReachable(agents: Registry, edges: seq<Edge>, root: Id, x: Id)
    ensures x in Collected(Subtree(agents, edges, root, {}).children) <==> Reachable(Adjacency(edges), root, x)
  {
    var g := Adjacency(edges);
    var bs := Subtree(agents, edges, root, {}).children;
    if x in Collected(bs) {
      var k :| 0 <= k < |Collected(bs)| && Collected(bs)[k] == x;
      var p := PlacePath(agents, edges, root, k);
      assert WalkBetween(g, root, x, p);
    }
    if Reachable(g, root, x) {
      var p :| WalkBetween(g, root, x, p);
      var q := Shorten(g, root, x, p);
      var k := PathPlace(agents, edges, root, q);
    }
  }

  /** The descendant count is the number of distinct node paths, and the length of the affected list. */
  lemma CountIsNumberOfPaths(agents: Registry, edges: seq<Edge>, root: Id) returns (paths: set<seq<Id>>)
    ensures forall p :: p in paths <==> TreePath(edges, root, {}, p)
    ensures Count(Subtree(agents, edges, root, {}).children) == |paths|
    ensures |Collected(Subtree(agents, edges, root, {}).children)| == |paths|
  {
    var bs := Subtree(agents, edges, root, {}).children;
    var ps := NodePaths(root, bs);
    paths := Members(ps);
    SubtreeBranchesDistinct(agents, edges, root, {});
    PathsAreDistinct(root, bs);
    PathsFollowNodes(root, bs);
    DistinctSize(ps);
    forall p ensures p in paths <==> TreePath(edges, root, {}, p) {
      PathsAreWalks(agents, edges, root, {}, p);
    }
  }

  /** On an acyclic graph every walk is counted, so the count is the number of walks from the root. */
  lemma AcyclicCountsEveryWalk(edges: seq<Edge>, root: Id, p: seq<Id>)
    requires AcyclicFrom(Adjacency(edges), root)
    ensures TreePath(edges, root, {}, p) <==> |p| >= 2 && p[0] == root && Walk(Adjacency(edges), p)
  {
    if |p| >= 2 && p[0] == root && Walk(Adjacency(edges), p) {
      AcyclicWalksAreDistinct(Adjacency(edges), root, p);
    }
  }

  ghost predicate SinglePaths(edges: seq<Edge>, root: Id) {
    forall p, q :: TreePath(edges, root, {}, p) && TreePath(edges, root, {}, q) && p[|p| - 1] == q[|q| - 1] ==> p == q
  }

  lemma DistinctMeansSinglePaths(agents: Registry, edges: seq<Edge>, root: Id)
    requires Distinct(Collected(Subtree(agents, edges, root, {}).children))
    ensures SinglePaths(edges, root)
  {
    var bs := Subtree(agents, edges, root, {}).children;
    forall p, q | TreePath(edges, root, {}, p) && TreePath(edges, root, {}, q) && p[|p| - 1] == q[|q| - 1]
      ensures p == q
    {
      var i := PathPlace(agents, edges, root, p);
      var j := PathPlace(agents, edges, root, q);
      assert Collected(bs)[i] == Collected(bs)[j];
    }
  }

  lemma RepeatMeansTwoPaths(agents: Registry, edges: seq<Edge>, root: Id)
    requires !Distinct(Collected(Subtree(agents, edges, root, {}).children))
    ensures !SinglePaths(edges, root)
  {
    var bs := Subtree(agents, edges, root, {}).children;
    var i, j :| 0 <= i < j < |Collected(bs)| && Collected(bs)[i] == Collected(bs)[j];
    var p := PlacePath(agents, edges, root, i);
    var q := PlacePath(agents, edges, root, j);
    assert p != q by {
      SubtreeBranchesDistinct(agents, edges, root, {});
      PathsAreDistinct(root, bs);
    }
  }

  /** The count is the number of distinct affected agents exactly when each has a single path. */
  lemma CountIsAgentsIffSinglePaths(agents: Registry, edges: seq<Edge>, root: Id)
    ensures var bs := Subtree(agents, edges, root, {}).children;
      Count(bs) == |Members(Collected(bs))| <==> SinglePaths(edges, root)
  {
    var bs := Subtree(agents, edges, root, {}).children;
    PathsFollowNodes(root, bs);
    if Distinct(Collected(bs)) {
      DistinctMeansSinglePaths(agents, edges, root);
      DistinctSize(Collected(bs));
    } else {
      RepeatMeansTwoPaths(agents, edges, root);
      RepeatShrinks(Collected(bs));
    }
  }

  // ---------- critical paths ----------

  function AddDeps(forward: Graph, t: Id, deps: seq<Id>): Graph {
    if deps == [] then forward else
      var g := AddDeps(forward, t, deps[..|deps| - 1]);
      var dep := deps[|deps| - 1];
      g[dep := Succ(g, dep) + [t]]
  }

  function Forward(tasks: seq<Task>): Graph {
    if tasks == [] then map[] else
      var last := tasks[|tasks| - 1];
      AddDeps(Forward(tasks[..|tasks| - 1]), last.taskId, last.dependsOn)
  }

  lemma {:induction false} AddDepsEdges(forward: Graph, t: Id, deps: seq<Id>, x: Id, y: Id)
    ensures y in Succ(AddDeps(forward, t, deps), x) <==> y in Succ(forward, x) || (y == t && x in deps)
  {
    if deps != [] {
      AddDepsEdges(forward, t, deps[..|deps| - 1], x, y);
      assert deps == deps[..|deps| - 1] + [deps[|deps| - 1]];
    }
  }

  /** The forward map relates each task to the tasks that depend on it. */
  lemma {:induction false} ForwardEdges(tasks: seq<Task>, x: Id, y: Id)
    ensures y in Succ(Forward(tasks), x) <==> exists t :: t in tasks && t.taskId == y && x in t.dependsOn
  {
    if tasks != [] {
      var front, last := tasks[..|tasks| - 1], tasks[|tasks| - 1];
      ForwardEdges(front, x, y);
      AddDepsEdges(Forward(front), last.taskId, last.dependsOn, x, y);
      assert tasks == front + [last];
    }
  }

  ghost function Longest(g: Graph, t: Id, visited: set<Id>): (p: seq<Id>)
    ensures |p| >= 1 && p[0] == t
    decreases g.Keys - visited, 1, 0
  {
    if t in visited || Succ(g, t) == [] then [t] else [t] + Best(g, Succ(g, t), visited + {t})
  }

  ghost function Best(g: Graph, succs: seq<Id>, visited: set<Id>): (p: seq<Id>)
    decreases g.Keys - visited, 2, |succs|
  {
    if succs == [] then [] else
      var best := Best(g, succs[..|succs| - 1], visited);
      var path := Longest(g, succs[|succs| - 1], visited);
      if |path| > |best| then path else best
  }

  lemma {:induction false} BestIsLongest(g: Graph, succs: seq<Id>, visited: set<Id>)
    ensures forall s :: s in succs ==> |Longest(g, s, visited)| <= |Best(g, succs, visited)|
    ensures succs != [] ==> exists s :: s in succs && Best(g, succs, visited) == Longest(g, s, visited)
  {
    if succs != [] {
      var front, last := succs[..|succs| - 1], succs[|succs| - 1];
      BestIsLongest(g, front, visited);
      assert succs == front + [last];
      assert last in succs;
    }
  }

  lemma {:induction false} LongestIsWalk(g: Graph, t: Id, visited: set<Id>)
    ensures Walk(g, Longest(g, t, visited)) && NearlySimple(visited, Longest(g, t, visited))
    decreases g.Keys - visited
  {
    if t !in visited && Succ(g, t) != [] {
      var p := Longest(g, t, visited);
      BestIsLongest(g, Succ(g, t), visited + {t});
      var s :| s in Succ(g, t) && p[1..] == Longest(g, s, visited + {t});
      LongestIsWalk(g, s, visited + {t});
      NearlySimpleTail(g, visited, p);
    }
  }

  lemma {:induction false} LongestIsMaximal(g: Graph, t: Id, visited: set<Id>, p: seq<Id>)
    requires Walk(g, p) && p[0] == t && NearlySimple(visited, p)
    ensures |p| <= |Longest(g, t, visited)|
    decreases |p|
  {
    if |p| >= 2 {
      NearlySimpleTail(g, visited, p);
      BestIsLongest(g, Succ(g, t), visited + {t});
      LongestIsMaximal(g, p[1], visited + {t}, p[1..]);
    }
  }

  ghost function CriticalPathOf(tasks: seq<Task>, t: Id): seq<Id> {
    Longest(Forward(tasks), t, {})
  }

  /** On every task graph: a chain from `t`, repeating no task before its last, and no such chain is longer. */
  lemma CriticalPathIsLongestSimple(tasks: seq<Task>, t: Id)
    ensures var p, g := CriticalPathOf(tasks, t), Forward(tasks);
      Walk(g, p) && p[0] == t && NearlySimple({}, p) &&
      forall q :: Walk(g, q) && q[0] == t && NearlySimple({}, q) ==> |q| <= |p|
  {
    var g := Forward(tasks);
    LongestIsWalk(g, t, {});
    forall q | Walk(g, q) && q[0] == t && NearlySimple({}, q)
      ensures |q| <= |Longest(g, t, {})|
    {
      LongestIsMaximal(g, t, {}, q);
    }
  }

  /** The path is a longest dependency chain exactly when no dependency cycle can be entered from `t`. */
  lemma CriticalPathIsLongestIffAcyclic(tasks: seq<Task>, t: Id)
    ensures var g := Forward(tasks);
      (forall q :: Walk(g, q) && q[0] == t ==> |q| <= |CriticalPathOf(tasks, t)|) <==> AcyclicFrom(g, t)
  {
    var g, n := Forward(tasks), |CriticalPathOf(tasks, t)|;
    if AcyclicFrom(g, t) {
      forall q | Walk(g, q) && q[0] == t ensures |q| <= n {
        AcyclicWalksAreDistinct(g, t, q);
        CriticalPathIsLongestSimple(tasks, t);
      }
    } else {
      var x :| (x == t || Reachable(g, t, x)) && Reachable(g, x, x);
      var loop :| WalkBetween(g, x, x, loop);
      var prefix := [t];
      if x != t {
        prefix :| WalkBetween(g, t, x, prefix);
      }
      var q := Pump(g, prefix, loop, n + 1);
    }
  }

  // ---------- ancestor chains ----------

  /** The id that the loop goes on with, if the source finds it truthy. */
  function Truthy(id: Option<Id>): bool {
    id.Some? && id.value != ""
  }

  /** `chain` climbs by parent links from `id`, repeats nobody, and stops only where it must. */
  ghost predicate AncestorChain(agents: Registry, id: Id, chain: seq<Id>) {
    Distinct(chain) &&
    (forall x :: x in chain ==> x in agents && x != "") &&
    (forall i :: 0 <= i < |chain| - 1 ==> agents[chain[i]].parentId == Some(chain[i + 1])) &&
    (if chain == [] then id == "" || id !in agents
     else chain[0] == id &&
          var next := agents[chain[|chain| - 1]].parentId;
          !Truthy(next) || next.value in chain || next.value !in agents)
  }

  /** There is only one such chain. */
  lemma AncestorChainUnique(agents: Registry, id: Id, c: seq<Id>, d: seq<Id>)
    requires AncestorChain(agents, id, c) && AncestorChain(agents, id, d)
    ensures c == d
  {
    if |c| <= |d| {
      AncestorPrefix(agents, id, c, d, |c|);
    } else {
      AncestorPrefix(agents, id, d, c, |d|);
    }
  }

  lemma {:induction false} AncestorPrefix(agents: Registry, id: Id, c: seq<Id>, d: seq<Id>, n: nat)
    requires AncestorChain(agents, id, c) && AncestorChain(agents, id, d)
    requires n <= |c| <= |d|
    ensures c[..n] == d[..n]
    ensures n == |c| ==> c == d
  {
    if n > 0 {
      AncestorPrefix(agents, id, c, d, n - 1);
      if n > 1 {
        assert c[n - 2] == c[..n - 1][n - 2] == d[n - 2];
        assert agents[c[n - 2]].parentId == Some(c[(n - 2) + 1]);
        assert agents[d[n - 2]].parentId == Some(d[(n - 2) + 1]);
      }
      assert c[..n] == d[..n];
      if |c| < |d| {
        assert agents[d[n - 1]].parentId == Some(d[(n - 1) + 1]);
        assert d[n] in d;
      }
    }
    assert d != [] ==> d[0] in d;
    assert n == |c| ==> c[..n] == c;
    assert n == |d| ==> d[..n] == d;
  }

  lemma PutBranchAt(agents: Registry, edges: seq<Edge>, out: seq<Edge>, i: nat, visited: set<Id>)
    requires i < |out|
    ensures Put(Branches(agents, edges, Kids(out[..i]), visited),
                Branch(out[i].child, Subtree(agents, edges, out[i].child, visited)))
         == Branches(agents, edges, Kids(out[..i + 1]), visited)
  {
    PutBranch(agents, edges, out[..i], out[i], visited);
    assert out[..i + 1] == out[..i] + [out[i]];
  }

  // ---------- the graph object ----------

  class LineageGraph {
    var edges: seq<Edge>

    constructor ()
      ensures edges == []
    {
      edges := [];
    }

    method RecordEdge(edge: Edge)
      modifies this
      ensures edges == old(edges) + [edge]
    {
      edges := edges + [edge];
    }

    method GetLineage(registry: Option<Registry>, agentId: Id) returns (chain: seq<Id>)
      ensures registry.None? ==> chain == []
      ensures registry.Some? ==> AncestorChain(registry.value, agentId, chain)
    {
      chain := [];
      if registry.None? {
        return;
      }
      var agents := registry.value;
      var current := Some(agentId);
      var seen: set<Id> := {};
      while Truthy(current) && current.value !in seen
        invariant seen <= agents.Keys && seen == set x | x in chain
        invariant Distinct(chain)
        invariant forall x :: x in chain ==> x in agents && x != ""
        invariant forall i :: 0 <= i < |chain| - 1 ==> agents[chain[i]].parentId == Some(chain[i + 1])
        invariant if chain == [] then current == Some(agentId)
                  else chain[0] == agentId && agents[chain[|chain| - 1]].parentId == current
        decreases agents.Keys - seen
      {
        if current.value !in agents {
          break;
        }
        seen := seen + {current.value};
        chain := chain + [current.value];
        current := agents[current.value].parentId;
      }
    }

    method BuildNode(agents: Registry, id: Id, visited: set<Id>) returns (node: Tree)
      ensures node == Subtree(agents, edges, id, visited)
      decreases Adjacency(edges).Keys - visited
    {
      if id in visited {
        return Tree(id, None, [], []);
      }
      var onPath := visited + {id};
      var out := Outgoing(edges, id);
      var children: seq<Branch> := [];
      SubtreeUnfolds(agents, edges, id, visited);
      for i := 0 to |out|
        invariant children == Branches(agents, edges, Kids(out[..i]), onPath)
      {
        var sub := BuildNode(agents, out[i].child, onPath);
        PutBranchAt(agents, edges, out, i, onPath);
        children := Put(children, Branch(out[i].child, sub));
      }
      assert out[..|out|] == out;
      node := Tree(id, Record(agents, id), out, children);
    }

    static method CountDescendants(bs: seq<Branch>) returns (total: nat)
      ensures total == Count(bs)
    {
      total := 0;
      for i := 0 to |bs|
        invariant total == Count(bs[..i])
      {
        var below := CountDescendants(bs[i].node.children);
        assert bs[..i + 1][..i] == bs[..i];
        total := total + 1 + below;
      }
      assert bs[..|bs|] == bs;
    }

    static method CollectDescendants(bs: seq<Branch>) returns (ids: seq<Id>)
      ensures ids == Collected(bs)
    {
      ids := [];
      for i := 0 to |bs|
        invariant ids == Collected(bs[..i])
      {
        var below := CollectDescendants(bs[i].node.children);
        assert bs[..i + 1][..i] == bs[..i];
        ids := ids + [bs[i].id] + below;
      }
      assert bs[..|bs|] == bs;
    }

    /** The annotated call tree; no registry, no tree. */
    method GetSubtree(registry: Option<Registry>, root: Id) returns (tree: Option<Tree>, descendants: nat)
      ensures registry.None? ==> tree == None && descendants == 0
      ensures registry.Some? ==>
        tree == Some(Subtree(registry.value, edges, root, {})) && descendants == Count(tree.value.children)
    {
      if registry.None? {
        return None, 0;
      }
      var node := BuildNode(registry.value, root, {});
      descendants := CountDescendants(node.children);
      tree := Some(node);
    }

    /** Which agents are affected if this one fails. */
    method GetBlastRadius(registry: Option<Registry>, agentId: Id) returns (affected: seq<Id>, count: nat)
      ensures count == |affected|
      ensures registry.None? ==> affected == []
      ensures registry.Some? ==> forall x :: x in affected <==> Reachable(Adjacency(edges), agentId, x)
      ensures registry.Some? ==> affected == Collected(Subtree(registry.value, edges, agentId, {}).children)
    {
      var tree, _ := GetSubtree(registry, agentId);
      affected := [];
      if tree.Some? {
        affected := CollectDescendants(tree.value.children);
        forall x ensures x in affected <==> Reachable(Adjacency(edges), agentId, x) {
          AffectedAreReachable(registry.value, edges, agentId, x);
        }
      }
      count := |affected|;
    }

    static method BuildForward(tasks: seq<Task>) returns (forward: Graph)
      ensures forward == Forward(tasks)
    {
      forward := map[];
      for i := 0 to |tasks|
        invariant forward == Forward(tasks[..i])
      {
        var deps := tasks[i].dependsOn;
        for j := 0 to |deps|
          invariant forward == AddDeps(Forward(tasks[..i]), tasks[i].taskId, deps[..j])
        {
          assert deps[..j + 1][..j] == deps[..j];
          forward := forward[deps[j] := Succ(forward, deps[j]) + [tasks[i].taskId]];
        }
        assert deps[..|deps|] == deps;
        assert tasks[..i + 1][..i] == tasks[..i];
      }
      assert tasks[..|tasks|] == tasks;
    }

    static method LongestPath(g: Graph, tid: Id, visited: set<Id>) returns (path: seq<Id>)
      ensures path == Longest(g, tid, visited)
      decreases g.Keys - visited
    {
      if tid in visited {
        return [tid];
      }
      var successors := Succ(g, tid);
      if successors == [] {
        return [tid];
      }
      var best: seq<Id> := [];
      for i := 0 to |successors|
        invariant best == Best(g, successors[..i], visited + {tid})
      {
        var candidate := LongestPath(g, successors[i], visited + {tid});
        assert successors[..i + 1][..i] == successors[..i];
        if |candidate| > |best| {
          best := candidate;
        }
      }
      assert successors[..|successors|] == successors;
      path := [tid] + best;
    }

    /** The critical path; without a scheduler only the task itself is known. */
    static method CriticalPath(tasks: Option<seq<Task>>, taskId: Id) returns (path: seq<Id>)
      ensures tasks.None? ==> path == [taskId]
      ensures tasks.Some? ==> path == CriticalPathOf(tasks.value, taskId)
    {
      if tasks.None? {
        return [taskId];
      }
      var forward := BuildForward(tasks.value);
      path := LongestPath(forward, taskId, {});
    }
  }
}
