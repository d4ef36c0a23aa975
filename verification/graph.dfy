/** Reachability over a finite set of edges between named nodes. */
module Graph {
  import opened TextCodes

  type Node = Text
  type Edges = set<(Node, Node)>

  ghost predicate IsPath(edges: Edges, path: seq<Node>) {
    |path| > 0 && forall i :: 0 <= i < |path| - 1 ==> (path[i], path[i + 1]) in edges
  }

  ghost predicate Reaches(edges: Edges, a: Node, b: Node) {
    exists path :: IsPath(edges, path) && path[0] == a && path[|path| - 1] == b
  }

  /** Both directions of every edge. */
  ghost function Undirected(edges: Edges): Edges {
    edges + set e | e in edges :: (e.1, e.0)
  }

  lemma ReachesSelf(edges: Edges, a: Node)
    ensures Reaches(edges, a, a)
  {
    assert IsPath(edges, [a]);
  }

  lemma ReachesStep(edges: Edges, a: Node, b: Node, c: Node)
    requires Reaches(edges, a, b) && (b, c) in edges
    ensures Reaches(edges, a, c)
  {
    var path :| IsPath(edges, path) && path[0] == a && path[|path| - 1] == b;
    assert IsPath(edges, path + [c]);
  }

  lemma ReachesTransitive(edges: Edges, a: Node, b: Node, c: Node)
    requires Reaches(edges, a, b) && Reaches(edges, b, c)
    ensures Reaches(edges, a, c)
  {
    var p :| IsPath(edges, p) && p[0] == a && p[|p| - 1] == b;
    var q :| IsPath(edges, q) && q[0] == b && q[|q| - 1] == c;
    var path := p + q[1..];
    forall i | 0 <= i < |path| - 1 ensures (path[i], path[i + 1]) in edges {
      if i >= |p| - 1 {
        var k := i - (|p| - 1);
        assert path[i] == q[k] && path[i + 1] == q[k + 1];
      }
    }
    assert path[|path| - 1] == c;
  }

  lemma ReachesMore(small: Edges, big: Edges, a: Node, b: Node)
    requires small <= big && Reaches(small, a, b)
    ensures Reaches(big, a, b)
  {}

  lemma {:induction false} ReachesSymmetric(edges: Edges, a: Node, b: Node)
    requires Reaches(Undirected(edges), a, b)
    ensures Reaches(Undirected(edges), b, a)
  {
    var both := Undirected(edges);
    var path :| IsPath(both, path) && path[0] == a && path[|path| - 1] == b;
    var back := seq(|path|, i requires 0 <= i < |path| => path[|path| - 1 - i]);
    forall i | 0 <= i < |back| - 1 ensures (back[i], back[i + 1]) in both {
      var k := |path| - 2 - i;
      assert (path[k], path[k + 1]) in both;
    }
    assert IsPath(both, back);
  }

  /** A set that contains the start and every edge leaving it contains all
    * that is reachable. */
  lemma {:induction false} ClosedContainsReachable(edges: Edges, closed: set<Node>, a: Node, b: Node)
    requires a in closed && Reaches(edges, a, b)
    requires forall e :: e in edges && e.0 in closed ==> e.1 in closed
    ensures b in closed
  {
    var path :| IsPath(edges, path) && path[0] == a && path[|path| - 1] == b;
    var i := 0;
    while i < |path| - 1
      invariant 0 <= i < |path| && path[i] in closed
    {
      assert (path[i], path[i + 1]) in edges;
      i := i + 1;
    }
  }
}
