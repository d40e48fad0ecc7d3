/** The graph a percolation system's union-find structures stand for. Its
    nodes are the n*n sites (flat, row-major, 0-based), a virtual top node
    n*n and, in the graph with a bottom, a virtual bottom node n*n+1. Open
    sites that are orthogonal neighbours are joined, every open site of the
    top row is joined to the top node, and, when the bottom node is present,
    every open site of the bottom row is joined to it. */
module SiteGraph {
  import opened Grid

  datatype Graph = Graph(n: int, open: seq<bool>, withBottom: bool)

  predicate WellFormed(g: Graph) {
    g.n >= 1 && |g.open| == g.n * g.n
  }

  function Top(n: int): int {
    n * n
  }

  function Bottom(n: int): int {
    n * n + 1
  }

  /** The number of nodes: the sites, the top node, and the bottom node if present. */
  function Nodes(g: Graph): int {
    g.n * g.n + if g.withBottom then 2 else 1
  }

  predicate OpenSite(g: Graph, a: int) {
    0 <= a < |g.open| && g.open[a]
  }

  predicate TopRow(n: int, a: int)
    requires n > 0
  {
    Row(a, n) == 0
  }

  predicate BottomRow(n: int, a: int)
    requires n > 0
  {
    Row(a, n) == n - 1
  }

  predicate Edge(g: Graph, a: int, b: int)
    requires WellFormed(g)
  {
    || (OpenSite(g, a) && OpenSite(g, b) && Adjacent(a, b, g.n))
    || (OpenSite(g, a) && TopRow(g.n, a) && b == Top(g.n))
    || (OpenSite(g, b) && TopRow(g.n, b) && a == Top(g.n))
    || (g.withBottom && OpenSite(g, a) && BottomRow(g.n, a) && b == Bottom(g.n))
    || (g.withBottom && OpenSite(g, b) && BottomRow(g.n, b) && a == Bottom(g.n))
  }

  lemma EdgeInRange(g: Graph, a: int, b: int)
    requires WellFormed(g) && Edge(g, a, b)
    ensures 0 <= a < Nodes(g) && 0 <= b < Nodes(g)
  {
  }

  ghost predicate IsPath(g: Graph, ps: seq<int>)
    requires WellFormed(g)
  {
    |ps| >= 1 && forall k :: 0 <= k < |ps| - 1 ==> Edge(g, ps[k], ps[k + 1])
  }

  ghost predicate Reachable(g: Graph, a: int, b: int)
    requires WellFormed(g)
  {
    exists ps :: IsPath(g, ps) && ps[0] == a && ps[|ps| - 1] == b
  }

  lemma PathConcat(g: Graph, xs: seq<int>, ys: seq<int>)
    requires WellFormed(g) && IsPath(g, xs) && IsPath(g, ys)
    requires Edge(g, xs[|xs| - 1], ys[0])
    ensures IsPath(g, xs + ys)
  {
    var zs := xs + ys;
    forall k | 0 <= k < |zs| - 1
      ensures Edge(g, zs[k], zs[k + 1])
    {
      if k < |xs| - 1 {
        assert zs[k] == xs[k] && zs[k + 1] == xs[k + 1];
      } else if k == |xs| - 1 {
        assert zs[k] == xs[|xs| - 1] && zs[k + 1] == ys[0];
      } else {
        assert zs[k] == ys[k - |xs|] && zs[k + 1] == ys[k - |xs| + 1];
      }
    }
  }

  /** A walk to x, a step from x to y and a walk from y make a walk. */
  lemma ReachStep(g: Graph, a: int, x: int, y: int, b: int)
    requires WellFormed(g) && Reachable(g, a, x) && Edge(g, x, y) && Reachable(g, y, b)
    ensures Reachable(g, a, b)
  {
    var xs :| IsPath(g, xs) && xs[0] == a && xs[|xs| - 1] == x;
    var ys :| IsPath(g, ys) && ys[0] == y && ys[|ys| - 1] == b;
    PathConcat(g, xs, ys);
    assert (xs + ys)[0] == a && (xs + ys)[|xs + ys| - 1] == b;
  }

  lemma ReachSelf(g: Graph, a: int)
    requires WellFormed(g)
    ensures Reachable(g, a, a)
  {
    assert IsPath(g, [a]);
  }

  /** h has every site of g open, and maybe more. */
  predicate Grows(g: Graph, h: Graph) {
    && g.n == h.n && g.withBottom == h.withBottom && |g.open| == |h.open|
    && forall a :: 0 <= a < |g.open| && g.open[a] ==> h.open[a]
  }

  lemma ReachGrows(g: Graph, h: Graph, a: int, b: int)
    requires WellFormed(g) && Grows(g, h) && Reachable(g, a, b)
    ensures WellFormed(h) && Reachable(h, a, b)
  {
    var ps :| IsPath(g, ps) && ps[0] == a && ps[|ps| - 1] == b;
    assert IsPath(h, ps) by {
      forall k | 0 <= k < |ps| - 1
        ensures Edge(h, ps[k], ps[k + 1])
      {
        assert Edge(g, ps[k], ps[k + 1]);
      }
    }
  }

  /** A closed site has no edges, so it reaches nothing but itself. */
  lemma ClosedIsolated(g: Graph, i: int, b: int)
    requires WellFormed(g) && 0 <= i < |g.open| && !g.open[i] && Reachable(g, i, b)
    ensures b == i
  {
    var ps :| IsPath(g, ps) && ps[0] == i && ps[|ps| - 1] == b;
    if |ps| >= 2 {
      FirstNodeOpen(g, ps);
    }
  }

  /** A walk of more than one node leaves a site only if the site is open. */
  lemma FirstNodeOpen(g: Graph, ps: seq<int>)
    requires WellFormed(g) && IsPath(g, ps) && |ps| >= 2 && 0 <= ps[0] < |g.open|
    ensures g.open[ps[0]]
  {
    assert Edge(g, ps[0], ps[1]);
  }

  // ---------------------------------------------------------------------------
  // Paths through open sites only

  /** ps runs through open sites, each an orthogonal neighbour of the next. */
  ghost predicate SitePath(g: Graph, ps: seq<int>)
    requires WellFormed(g)
  {
    && |ps| >= 1
    && (forall k :: 0 <= k < |ps| ==> OpenSite(g, ps[k]))
    && forall k :: 0 <= k < |ps| - 1 ==> Adjacent(ps[k], ps[k + 1], g.n)
  }

  /** Site a is joined to some open site of the top row through open sites. */
  ghost predicate FedFromTop(g: Graph, a: int)
    requires WellFormed(g)
  {
    exists ps :: SitePath(g, ps) && TopRow(g.n, ps[0]) && ps[|ps| - 1] == a
  }

  /** Some open site of the top row is joined to some open site of the bottom
      row through open sites. */
  ghost predicate Percolating(g: Graph)
    requires WellFormed(g)
  {
    exists ps :: SitePath(g, ps) && TopRow(g.n, ps[0]) && BottomRow(g.n, ps[|ps| - 1])
  }

  lemma SitePathIsPath(g: Graph, ps: seq<int>)
    requires WellFormed(g) && SitePath(g, ps)
    ensures IsPath(g, ps)
  {
    forall k | 0 <= k < |ps| - 1
      ensures Edge(g, ps[k], ps[k + 1])
    {
      assert OpenSite(g, ps[k]) && OpenSite(g, ps[k + 1]);
    }
  }

  lemma SitePathGrows(g: Graph, h: Graph, ps: seq<int>)
    requires WellFormed(g) && Grows(g, h) && SitePath(g, ps)
    ensures WellFormed(h) && SitePath(h, ps)
  {
    forall k | 0 <= k < |ps|
      ensures OpenSite(h, ps[k])
    {
      assert OpenSite(g, ps[k]);
    }
  }

  /** An edge between two sites joins neighbouring open sites. */
  lemma SiteEdge(g: Graph, a: int, b: int)
    requires WellFormed(g) && Edge(g, a, b)
    requires 0 <= a < g.n * g.n && 0 <= b < g.n * g.n
    ensures OpenSite(g, a) && OpenSite(g, b) && Adjacent(a, b, g.n)
  {
  }

  /** A walk whose nodes after the first avoid the top node and which ends
      at the bottom node starts, if at an open site, with a site path to an
      open site of the bottom row. */
  lemma {:induction false} ToBottom(g: Graph, qs: seq<int>)
    requires WellFormed(g) && IsPath(g, qs) && |qs| >= 2
    requires 0 <= qs[0] < g.n * g.n
    requires qs[|qs| - 1] == Bottom(g.n)
    requires forall k :: 0 <= k < |qs| ==> qs[k] != Top(g.n)
    ensures exists ps :: SitePath(g, ps) && ps[0] == qs[0] && BottomRow(g.n, ps[|ps| - 1])
    decreases |qs|
  {
    assert Edge(g, qs[0], qs[1]);
    if qs[1] == Bottom(g.n) {
      assert SitePath(g, [qs[0]]);
    } else {
      EdgeInRange(g, qs[0], qs[1]);
      SiteEdge(g, qs[0], qs[1]);
      var rest := qs[1..];
      assert IsPath(g, rest) by {
        forall k | 0 <= k < |rest| - 1
          ensures Edge(g, rest[k], rest[k + 1])
        {
          assert rest[k] == qs[k + 1] && rest[k + 1] == qs[k + 2];
        }
      }
      ToBottom(g, rest);
      var ps :| SitePath(g, ps) && ps[0] == qs[1] && BottomRow(g.n, ps[|ps| - 1]);
      var ps' := [qs[0]] + ps;
      assert SitePath(g, ps') by {
        forall k | 0 <= k < |ps'| - 1
          ensures Adjacent(ps'[k], ps'[k + 1], g.n)
        {
          if k > 0 {
            assert ps'[k] == ps[k - 1] && ps'[k + 1] == ps[k];
          }
        }
      }
      assert ps'[|ps'| - 1] == ps[|ps| - 1];
    }
  }

  /** A walk from the top node to site a in the graph without a bottom
      node: after its last visit to the top node it is a site path from an
      open site of the top row to a. */
  lemma {:induction false} FromTopToSite(g: Graph, qs: seq<int>)
    requires WellFormed(g) && !g.withBottom && IsPath(g, qs)
    requires qs[0] == Top(g.n) && 0 <= qs[|qs| - 1] < g.n * g.n
    ensures FedFromTop(g, qs[|qs| - 1])
    decreases |qs|
  {
    var rest := qs[1..];
    assert IsPath(g, rest) by {
      forall k | 0 <= k < |rest| - 1
        ensures Edge(g, rest[k], rest[k + 1])
      {
        assert rest[k] == qs[k + 1] && rest[k + 1] == qs[k + 2];
      }
    }
    if k :| 0 <= k < |rest| && rest[k] == Top(g.n) {
      var tail := rest[k..];
      assert IsPath(g, tail) by {
        forall m | 0 <= m < |tail| - 1
          ensures Edge(g, tail[m], tail[m + 1])
        {
          assert tail[m] == rest[k + m] && tail[m + 1] == rest[k + m + 1];
        }
      }
      FromTopToSite(g, tail);
    } else {
      assert Edge(g, qs[0], qs[1]);
      forall m | 0 <= m < |rest|
        ensures OpenSite(g, rest[m])
      {
        if m < |rest| - 1 {
          assert Edge(g, rest[m], rest[m + 1]);
        } else if m > 0 {
          assert Edge(g, rest[m - 1], rest[m]);
        }
      }
      assert SitePath(g, rest) by {
        forall m | 0 <= m < |rest| - 1
          ensures Adjacent(rest[m], rest[m + 1], g.n)
        {
          assert Edge(g, rest[m], rest[m + 1]);
          assert OpenSite(g, rest[m]) && OpenSite(g, rest[m + 1]);
        }
      }
    }
  }

  /** In the graph without a bottom node, an open site is reachable from the
      top node exactly when it is fed from an open site of the top row. */
  lemma FullIff(g: Graph, a: int)
    requires WellFormed(g) && !g.withBottom && 0 <= a < g.n * g.n
    ensures Reachable(g, Top(g.n), a) <==> FedFromTop(g, a)
  {
    if Reachable(g, Top(g.n), a) {
      var qs :| IsPath(g, qs) && qs[0] == Top(g.n) && qs[|qs| - 1] == a;
      FromTopToSite(g, qs);
    }
    if FedFromTop(g, a) {
      var ps :| SitePath(g, ps) && TopRow(g.n, ps[0]) && ps[|ps| - 1] == a;
      SitePathIsPath(g, ps);
      assert OpenSite(g, ps[0]);
      PathConcat(g, [Top(g.n)], ps);
      assert ([Top(g.n)] + ps)[|[Top(g.n)] + ps| - 1] == a;
    }
  }

  /** A walk from the top node to the bottom node contains, after its last
      visit to the top node, a site path across the grid. */
  lemma {:induction false} TopToBottom(g: Graph, qs: seq<int>)
    requires WellFormed(g) && g.withBottom && IsPath(g, qs)
    requires qs[0] == Top(g.n) && qs[|qs| - 1] == Bottom(g.n)
    ensures Percolating(g)
    decreases |qs|
  {
    var rest := qs[1..];
    assert IsPath(g, rest) by {
      forall k | 0 <= k < |rest| - 1
        ensures Edge(g, rest[k], rest[k + 1])
      {
        assert rest[k] == qs[k + 1] && rest[k + 1] == qs[k + 2];
      }
    }
    if k :| 0 <= k < |rest| && rest[k] == Top(g.n) {
      var tail := rest[k..];
      assert IsPath(g, tail) by {
        forall m | 0 <= m < |tail| - 1
          ensures Edge(g, tail[m], tail[m + 1])
        {
          assert tail[m] == rest[k + m] && tail[m + 1] == rest[k + m + 1];
        }
      }
      TopToBottom(g, tail);
    } else {
      assert Edge(g, qs[0], qs[1]);
      assert OpenSite(g, rest[0]) && TopRow(g.n, rest[0]);
      ToBottom(g, rest);
      var ps :| SitePath(g, ps) && ps[0] == rest[0] && BottomRow(g.n, ps[|ps| - 1]);
    }
  }

  /** With the bottom node present, the top node reaches the bottom node
      exactly when the open sites percolate. */
  lemma PercolatesIff(g: Graph)
    requires WellFormed(g) && g.withBottom
    ensures Reachable(g, Top(g.n), Bottom(g.n)) <==> Percolating(g)
  {
    if Reachable(g, Top(g.n), Bottom(g.n)) {
      var qs :| IsPath(g, qs) && qs[0] == Top(g.n) && qs[|qs| - 1] == Bottom(g.n);
      TopToBottom(g, qs);
    }
    if Percolating(g) {
      var ps :| SitePath(g, ps) && TopRow(g.n, ps[0]) && BottomRow(g.n, ps[|ps| - 1]);
      SitePathIsPath(g, ps);
      assert OpenSite(g, ps[0]) && OpenSite(g, ps[|ps| - 1]);
      PathConcat(g, [Top(g.n)], ps);
      var qs := [Top(g.n)] + ps;
      assert qs[|qs| - 1] == ps[|ps| - 1];
      PathConcat(g, qs, [Bottom(g.n)]);
      assert (qs + [Bottom(g.n)])[0] == Top(g.n);
    }
  }
}
