/** The percolation system: an n-by-n grid of sites, each open or blocked,
    addressed by 1-based (row, col). Two union-find structures follow the
    open sites: `grid` also joins a virtual bottom node to the open sites of
    the bottom row and answers whether the system percolates; `full` has no
    bottom node, so links through the bottom row never make a site full. */
module Percolations {
  import opened Wrappers
  import opened Grid
  import opened SiteGraph
  import UnionFind

  datatype Percolation = Percolation(n: int, openSites: seq<bool>, openSiteCount: int,
                                     grid: UnionFind.UF, full: UnionFind.UF)

  // ---------------------------------------------------------------------------
  // Coordinates

  predicate IsValid(n: int, row: int, col: int) {
    row > 0 && row <= n && col > 0 && col <= n
  }

  /** The index arithmetic of flatIndex, without its bounds check. */
  function Flat(n: int, row: int, col: int): int {
    (n * (row - 1) + col) - 1
  }

  lemma FlatFacts(n: int, row: int, col: int)
    requires IsValid(n, row, col)
    ensures 0 <= Flat(n, row, col) < n * n
    ensures Row(Flat(n, row, col), n) == row - 1 && Col(Flat(n, row, col), n) == col - 1
  {
    DivModUnique(Flat(n, row, col), row - 1, col - 1, n);
    MulMonotone(n - 1, row - 1, n);
    assert (n - 1) * n == n * n - n;
  }

  /** flatIndex: coordinates outside 1..n throw; the others map row-major
      onto the 0-based indices 0 .. n*n-1. */
  function FlatIndex(n: int, row: int, col: int): (r: Result<int, Exception>)
    ensures r.Err? <==> !IsValid(n, row, col)
    ensures r.Err? ==> r.error == IllegalArgument
    ensures r.Ok? ==> n > 0 && 0 <= r.value < n * n
    ensures r.Ok? ==> Row(r.value, n) == row - 1 && Col(r.value, n) == col - 1
    ensures r.Ok? ==> r.value == Flat(n, row, col)
  {
    if !IsValid(n, row, col) then Err(IllegalArgument)
    else
      FlatFacts(n, row, col);
      Ok(Flat(n, row, col))
  }

  /** Every index of the grid is the flat index of exactly one site, the one
      in its row and column counted from 1. */
  lemma FlatIndexOnto(n: int, i: int)
    requires n >= 1 && 0 <= i < n * n
    ensures IsValid(n, Row(i, n) + 1, Col(i, n) + 1)
    ensures FlatIndex(n, Row(i, n) + 1, Col(i, n) + 1) == Ok(i)
  {
    RowBound(i, n);
  }

  lemma FlatIndexInjective(n: int, row: int, col: int, row': int, col': int)
    requires IsValid(n, row, col) && IsValid(n, row', col')
    requires FlatIndex(n, row, col) == FlatIndex(n, row', col')
    ensures row == row' && col == col'
  {
  }

  /** The constructor places the virtual top and bottom just past the last
      site: one and two past flatIndex(n, n). */
  lemma VirtualNodes(n: int)
    requires n >= 1
    ensures Top(n) == FlatIndex(n, n, n).value + 1
    ensures Bottom(n) == FlatIndex(n, n, n).value + 2
  {
    assert n * (n - 1) == n * n - n;
  }

  // ---------------------------------------------------------------------------
  // The representation invariant

  function GridGraph(p: Percolation): Graph {
    Graph(p.n, p.openSites, true)
  }

  function FullGraph(p: Percolation): Graph {
    Graph(p.n, p.openSites, false)
  }

  /** The sizes the constructor sets up. */
  predicate Shape(p: Percolation) {
    && p.n >= 1 && |p.openSites| == p.n * p.n
    && UnionFind.Count(p.grid) == p.n * p.n + 2
    && UnionFind.Count(p.full) == p.n * p.n + 1
  }

  function CountOpen(s: seq<bool>): nat {
    multiset(s)[true]
  }

  /** Everything u joins is joined by a walk in g. */
  ghost predicate Sound(u: UnionFind.UF, g: Graph)
    requires WellFormed(g)
  {
    UnionFind.Count(u) == Nodes(g) &&
    forall a, b :: 0 <= a < Nodes(g) && 0 <= b < Nodes(g) && UnionFind.Connected(u, a, b) ==> Reachable(g, a, b)
  }

  /** u joins the two ends of every edge of g. */
  ghost predicate Covers(u: UnionFind.UF, g: Graph)
    requires WellFormed(g)
  {
    UnionFind.Count(u) == Nodes(g) &&
    forall a, b :: 0 <= a < Nodes(g) && 0 <= b < Nodes(g) && Edge(g, a, b) ==> UnionFind.Connected(u, a, b)
  }

  ghost predicate Valid(p: Percolation) {
    && Shape(p)
    && p.openSiteCount == CountOpen(p.openSites)
    && Sound(p.grid, GridGraph(p)) && Covers(p.grid, GridGraph(p))
    && Sound(p.full, FullGraph(p)) && Covers(p.full, FullGraph(p))
  }

  /** Joined by u exactly when joined by a walk in g: union-find answers
      questions about the graph. */
  lemma ConnectedIffReachable(u: UnionFind.UF, g: Graph, a: int, b: int)
    requires WellFormed(g) && Sound(u, g) && Covers(u, g)
    requires 0 <= a < Nodes(g) && 0 <= b < Nodes(g)
    ensures UnionFind.Connected(u, a, b) <==> Reachable(g, a, b)
  {
    if Reachable(g, a, b) {
      var ps :| IsPath(g, ps) && ps[0] == a && ps[|ps| - 1] == b;
      PathConnected(u, g, ps);
    }
  }

  lemma {:induction false} PathConnected(u: UnionFind.UF, g: Graph, ps: seq<int>)
    requires WellFormed(g) && Covers(u, g) && IsPath(g, ps) && 0 <= ps[0] < Nodes(g)
    ensures 0 <= ps[|ps| - 1] < Nodes(g)
    ensures UnionFind.Connected(u, ps[0], ps[|ps| - 1])
    decreases |ps|
  {
    if |ps| > 1 {
      var rest := ps[1..];
      assert Edge(g, ps[0], ps[1]);
      EdgeInRange(g, ps[0], ps[1]);
      assert IsPath(g, rest) by {
        forall k | 0 <= k < |rest| - 1
          ensures Edge(g, rest[k], rest[k + 1])
        {
          assert rest[k] == ps[k + 1] && rest[k + 1] == ps[k + 2];
        }
      }
      PathConnected(u, g, rest);
    }
  }

  // ---------------------------------------------------------------------------
  // Construction and queries

  /** The constructor: n <= 0 throws; otherwise every site is blocked, the
      open count is 0, `grid` has n*n+2 elements and `full` n*n+1. */
  function New(n: int): (r: Result<Percolation, Exception>)
    ensures r.Err? <==> n <= 0
    ensures r.Err? ==> r.error == IllegalArgument
    ensures r.Ok? ==> Valid(r.value) && r.value.n == n && r.value.openSiteCount == 0
    ensures r.Ok? ==> forall i :: 0 <= i < n * n ==> !r.value.openSites[i]
  {
    if n <= 0 then Err(IllegalArgument)
    else
      var p := Percolation(n, seq(n * n, _ => false), 0,
                           UnionFind.New(n * n + 2), UnionFind.New(n * n + 1));
      NewValid(p);
      Ok(p)
  }

  lemma NewValid(p: Percolation)
    requires p.n >= 1 && p.openSites == seq(p.n * p.n, _ => false) && p.openSiteCount == 0
    requires p.grid == UnionFind.New(p.n * p.n + 2) && p.full == UnionFind.New(p.n * p.n + 1)
    ensures Valid(p)
  {
    assert true !in p.openSites;
    forall a | 0 <= a < p.n * p.n + 2
      ensures Reachable(GridGraph(p), a, a) && Reachable(FullGraph(p), a, a)
    {
      ReachSelf(GridGraph(p), a);
      ReachSelf(FullGraph(p), a);
    }
  }

  /** isOpen: coordinates outside 1..n throw. */
  function IsOpen(p: Percolation, row: int, col: int): (r: Result<bool, Exception>)
    requires |p.openSites| == p.n * p.n
    ensures r.Err? <==> !IsValid(p.n, row, col)
    ensures r.Err? ==> r.error == IllegalArgument
    ensures r.Ok? ==> 0 <= Flat(p.n, row, col) < |p.openSites|
    ensures r.Ok? ==> r.value == p.openSites[Flat(p.n, row, col)]
  {
    match FlatIndex(p.n, row, col)
    case Err(e) => Err(e)
    case Ok(i) =>
      FlatFacts(p.n, row, col);
      Ok(p.openSites[i])
  }

  /** isFull: coordinates outside 1..n throw; otherwise the site must be open
      and share its component in `full` with the virtual top. */
  function IsFull(p: Percolation, row: int, col: int): (r: Result<bool, Exception>)
    requires Valid(p)
    ensures r.Err? <==> !IsValid(p.n, row, col)
    ensures r.Err? ==> r.error == IllegalArgument
    ensures r.Ok? ==> (r.value ==> IsOpen(p, row, col) == Ok(true))
    ensures r.Ok? ==> (r.value <==> FedFromTop(FullGraph(p), Flat(p.n, row, col)))
  {
    match FlatIndex(p.n, row, col)
    case Err(e) => Err(e)
    case Ok(i) =>
      var b := IsOpen(p, row, col) == Ok(true)
               && UnionFind.Find(p.full, i) == UnionFind.Find(p.full, Top(p.n));
      FullMeansFed(p, i);
      Ok(b)
  }

  lemma FullMeansFed(p: Percolation, i: int)
    requires Valid(p) && 0 <= i < p.n * p.n
    ensures p.openSites[i] && UnionFind.Connected(p.full, i, Top(p.n))
            <==> FedFromTop(FullGraph(p), i)
  {
    var g := FullGraph(p);
    ConnectedIffReachable(p.full, g, Top(p.n), i);
    FullIff(g, i);
    if FedFromTop(g, i) {
      var ps :| SitePath(g, ps) && TopRow(g.n, ps[0]) && ps[|ps| - 1] == i;
      assert OpenSite(g, ps[|ps| - 1]);
    }
  }

  function NumberOfOpenSites(p: Percolation): (r: int)
    requires Valid(p)
    ensures r == |set i | 0 <= i < |p.openSites| && p.openSites[i]|
  {
    CountTrue(p.openSites);
    p.openSiteCount
  }

  /** The number of true cells, counted as a multiset or as a set of indices. */
  lemma {:induction false} CountTrue(s: seq<bool>)
    ensures CountOpen(s) == |set i | 0 <= i < |s| && s[i]|
  {
    if |s| > 0 {
      var t := s[..|s| - 1];
      CountTrue(t);
      assert s == t + [s[|s| - 1]];
      var below := set i | 0 <= i < |t| && t[i];
      var all := set i | 0 <= i < |s| && s[i];
      if s[|s| - 1] {
        assert all == below + {|s| - 1};
      } else {
        assert all == below;
      }
    }
  }

  /** percolates: the virtual top and bottom share a component in `grid`. */
  function Percolates(p: Percolation): (r: bool)
    requires Valid(p)
    ensures r <==> Percolating(GridGraph(p))
  {
    var g := GridGraph(p);
    ConnectedIffReachable(p.grid, g, Top(p.n), Bottom(p.n));
    PercolatesIff(g);
    UnionFind.Find(p.grid, Top(p.n)) == UnionFind.Find(p.grid, Bottom(p.n))
  }

  // ---------------------------------------------------------------------------
  // Opening a site

  /** The union with the top node, when a site of the top row opens and is
      not yet in the top's component. */
  function LinkTop(q: Percolation, row: int, i: int): (r: Percolation)
    requires Shape(q) && 0 <= i < q.n * q.n
    ensures Shape(r) && r.n == q.n && r.openSites == q.openSites && r.openSiteCount == q.openSiteCount
  {
    if row == 1 && !(UnionFind.Find(q.grid, i) == UnionFind.Find(q.grid, Top(q.n))) then
      q.(grid := UnionFind.Union(q.grid, Top(q.n), i), full := UnionFind.Union(q.full, Top(q.n), i))
    else q
  }

  /** The union with the bottom node, in `grid` only, when a site of the
      bottom row opens. */
  function LinkBottom(q: Percolation, row: int, i: int): (r: Percolation)
    requires Shape(q) && 0 <= i < q.n * q.n
    ensures Shape(r) && r.n == q.n && r.openSites == q.openSites && r.openSiteCount == q.openSiteCount
  {
    if row == q.n then q.(grid := UnionFind.Union(q.grid, Bottom(q.n), i)) else q
  }

  /** The unions with the site at (row, col), in both structures, when it is
      inside the grid and open. */
  function LinkIfOpen(q: Percolation, row: int, col: int, i: int): (r: Percolation)
    requires Shape(q) && 0 <= i < q.n * q.n
    ensures Shape(r) && r.n == q.n && r.openSites == q.openSites && r.openSiteCount == q.openSiteCount
  {
    if IsValid(q.n, row, col) && IsOpen(q, row, col) == Ok(true) then
      var j := FlatIndex(q.n, row, col).value;
      q.(grid := UnionFind.Union(q.grid, j, i), full := UnionFind.Union(q.full, j, i))
    else q
  }

  /** The four neighbours in the order open visits them: above, below, left, right. */
  function LinkNeighbors(q: Percolation, row: int, col: int, i: int): (r: Percolation)
    requires Shape(q) && 0 <= i < q.n * q.n
    ensures Shape(r) && r.n == q.n && r.openSites == q.openSites && r.openSiteCount == q.openSiteCount
  {
    var q := LinkIfOpen(q, row - 1, col, i);
    var q := LinkIfOpen(q, row + 1, col, i);
    var q := LinkIfOpen(q, row, col - 1, i);
    LinkIfOpen(q, row, col + 1, i)
  }

  /** Every union open makes for site i, in its order: the top, the bottom,
      then the neighbours. */
  function Linked(q: Percolation, row: int, col: int, i: int): (r: Percolation)
    requires Shape(q) && 0 <= i < q.n * q.n
    ensures Shape(r) && r.n == q.n && r.openSites == q.openSites && r.openSiteCount == q.openSiteCount
  {
    LinkNeighbors(LinkBottom(LinkTop(q, row, i), row, i), row, col, i)
  }

  /** The state once the closed site i at (row, col) is marked open, given
      all its unions, and counted. */
  function Opened(p: Percolation, row: int, col: int, i: int): (r: Percolation)
    requires Shape(p) && 0 <= i < p.n * p.n
    ensures Shape(r) && r.n == p.n && r.openSites == p.openSites[i := true]
    ensures r.openSiteCount == p.openSiteCount + 1
  {
    var q := Linked(p.(openSites := p.openSites[i := true]), row, col, i);
    q.(openSiteCount := q.openSiteCount + 1)
  }

  /** open: coordinates outside 1..n throw; an open site is left alone;
      otherwise the site is marked open, joined to the virtual nodes its row
      calls for and to its open neighbours, and counted. */
  function Open(p: Percolation, row: int, col: int): (r: Result<Percolation, Exception>)
    requires Shape(p)
    ensures r.Err? <==> !IsValid(p.n, row, col)
    ensures r.Err? ==> r.error == IllegalArgument
    ensures r.Ok? ==> Shape(r.value) && r.value.n == p.n
    ensures IsOpen(p, row, col) == Ok(true) ==> r == Ok(p)
    ensures IsOpen(p, row, col) == Ok(false) ==>
              && r.Ok? && r.value.openSites == p.openSites[Flat(p.n, row, col) := true]
              && r.value.openSiteCount == p.openSiteCount + 1
  {
    match IsOpen(p, row, col)
    case Err(e) => Err(e)
    case Ok(true) => Ok(p)
    case Ok(false) =>
      var i := FlatIndex(p.n, row, col).value;
      Ok(Opened(p, row, col, i))
  }

  // ---------------------------------------------------------------------------
  // open keeps the invariant

  /** Every pair joined in u is joined in v. */
  ghost predicate Finer(u: UnionFind.UF, v: UnionFind.UF) {
    UnionFind.Count(u) == UnionFind.Count(v) &&
    forall x, y :: 0 <= x < UnionFind.Count(u) && 0 <= y < UnionFind.Count(u) && UnionFind.Connected(u, x, y)
                   ==> UnionFind.Connected(v, x, y)
  }

  lemma FinerTrans(u: UnionFind.UF, v: UnionFind.UF, w: UnionFind.UF)
    requires Finer(u, v) && Finer(v, w)
    ensures Finer(u, w)
  {
  }

  /** A union along an edge of g joins nothing that g does not join. */
  lemma UnionSound(u: UnionFind.UF, g: Graph, x: int, y: int)
    requires WellFormed(g) && Sound(u, g) && Edge(g, x, y)
    ensures 0 <= x < UnionFind.Count(u) && 0 <= y < UnionFind.Count(u)
    ensures Sound(UnionFind.Union(u, x, y), g)
    ensures Finer(u, UnionFind.Union(u, x, y))
  {
    EdgeInRange(g, x, y);
    var v := UnionFind.Union(u, x, y);
    assert Edge(g, y, x);
    forall a, b | 0 <= a < Nodes(g) && 0 <= b < Nodes(g) && UnionFind.Connected(v, a, b)
      ensures Reachable(g, a, b)
    {
      if UnionFind.Connected(u, a, b) {
      } else if UnionFind.Connected(u, a, x) && UnionFind.Connected(u, b, y) {
        assert UnionFind.Connected(u, y, b);
        ReachStep(g, a, x, y, b);
      } else {
        assert UnionFind.Connected(u, x, b);
        ReachStep(g, a, y, x, b);
      }
    }
  }

  lemma SoundGrows(u: UnionFind.UF, g: Graph, h: Graph)
    requires WellFormed(g) && Sound(u, g) && Grows(g, h)
    ensures WellFormed(h) && Sound(u, h)
  {
    forall a, b | 0 <= a < Nodes(h) && 0 <= b < Nodes(h) && UnionFind.Connected(u, a, b)
      ensures Reachable(h, a, b)
    {
      ReachGrows(g, h, a, b);
    }
  }

  /** A blocked site is in no component but its own: so when a site of the
      top row opens, the test against the top's component in open always
      passes. */
  lemma TopGuardHolds(p: Percolation, i: int)
    requires Valid(p) && 0 <= i < p.n * p.n && !p.openSites[i]
    ensures UnionFind.Find(p.grid, i) != UnionFind.Find(p.grid, Top(p.n))
  {
    if UnionFind.Connected(p.grid, i, Top(p.n)) {
      ClosedIsolated(GridGraph(p), i, Top(p.n));
    }
  }

  /** The unions of each step of open, whatever the graph: nothing joined
      comes apart, and the pair the step unites is joined. */
  lemma LinkTopJoins(q: Percolation, row: int, i: int)
    requires Shape(q) && 0 <= i < q.n * q.n
    ensures Finer(q.grid, LinkTop(q, row, i).grid) && Finer(q.full, LinkTop(q, row, i).full)
    ensures row == 1 && UnionFind.Find(q.grid, i) != UnionFind.Find(q.grid, Top(q.n)) ==>
              && UnionFind.Connected(LinkTop(q, row, i).grid, Top(q.n), i)
              && UnionFind.Connected(LinkTop(q, row, i).full, Top(q.n), i)
  {
  }

  lemma LinkBottomJoins(q: Percolation, row: int, i: int)
    requires Shape(q) && 0 <= i < q.n * q.n
    ensures Finer(q.grid, LinkBottom(q, row, i).grid) && LinkBottom(q, row, i).full == q.full
    ensures row == q.n ==> UnionFind.Connected(LinkBottom(q, row, i).grid, Bottom(q.n), i)
  {
  }

  lemma LinkIfOpenJoins(q: Percolation, row: int, col: int, i: int)
    requires Shape(q) && 0 <= i < q.n * q.n
    ensures Finer(q.grid, LinkIfOpen(q, row, col, i).grid) && Finer(q.full, LinkIfOpen(q, row, col, i).full)
    ensures IsValid(q.n, row, col) && OpenSite(GridGraph(q), Flat(q.n, row, col)) ==>
              && UnionFind.Connected(LinkIfOpen(q, row, col, i).grid, Flat(q.n, row, col), i)
              && UnionFind.Connected(LinkIfOpen(q, row, col, i).full, Flat(q.n, row, col), i)
  {
  }

  /** Each step of open unites only the ends of an edge of the graph with
      site i open, so it keeps both structures sound. */
  lemma LinkTopSound(q: Percolation, row: int, col: int, i: int)
    requires Shape(q) && IsValid(q.n, row, col) && i == Flat(q.n, row, col)
    requires 0 <= i < q.n * q.n && q.openSites[i]
    requires Sound(q.grid, GridGraph(q)) && Sound(q.full, FullGraph(q))
    ensures Sound(LinkTop(q, row, i).grid, GridGraph(q))
    ensures Sound(LinkTop(q, row, i).full, FullGraph(q))
  {
    FlatFacts(q.n, row, col);
    if row == 1 && UnionFind.Find(q.grid, i) != UnionFind.Find(q.grid, Top(q.n)) {
      assert Edge(GridGraph(q), Top(q.n), i);
      assert Edge(FullGraph(q), Top(q.n), i);
      UnionSound(q.grid, GridGraph(q), Top(q.n), i);
      UnionSound(q.full, FullGraph(q), Top(q.n), i);
    } else {
      assert LinkTop(q, row, i) == q;
    }
  }

  lemma LinkBottomSound(q: Percolation, row: int, col: int, i: int)
    requires Shape(q) && IsValid(q.n, row, col) && i == Flat(q.n, row, col)
    requires 0 <= i < q.n * q.n && q.openSites[i]
    requires Sound(q.grid, GridGraph(q)) && Sound(q.full, FullGraph(q))
    ensures Sound(LinkBottom(q, row, i).grid, GridGraph(q))
    ensures Sound(LinkBottom(q, row, i).full, FullGraph(q))
  {
    FlatFacts(q.n, row, col);
    if row == q.n {
      assert Edge(GridGraph(q), Bottom(q.n), i);
      UnionSound(q.grid, GridGraph(q), Bottom(q.n), i);
    } else {
      assert LinkBottom(q, row, i) == q;
    }
  }

  lemma LinkIfOpenSound(q: Percolation, row: int, col: int, i: int, row': int, col': int)
    requires Shape(q) && IsValid(q.n, row, col) && i == Flat(q.n, row, col)
    requires 0 <= i < q.n * q.n && q.openSites[i]
    requires Abs(row' - row) + Abs(col' - col) == 1
    requires Sound(q.grid, GridGraph(q)) && Sound(q.full, FullGraph(q))
    ensures Sound(LinkIfOpen(q, row', col', i).grid, GridGraph(q))
    ensures Sound(LinkIfOpen(q, row', col', i).full, FullGraph(q))
  {
    if IsValid(q.n, row', col') {
      var j := Flat(q.n, row', col');
      NeighborAdjacent(q.n, row, col, row', col');
      if q.openSites[j] {
        assert Edge(GridGraph(q), j, i);
        assert Edge(FullGraph(q), j, i);
        UnionSound(q.grid, GridGraph(q), j, i);
        UnionSound(q.full, FullGraph(q), j, i);
      } else {
        assert LinkIfOpen(q, row', col', i) == q;
      }
    } else {
      assert LinkIfOpen(q, row', col', i) == q;
    }
  }

  /** The unions with the virtual nodes keep both structures sound. */
  lemma EndsSound(q: Percolation, row: int, col: int, i: int)
    requires Shape(q) && IsValid(q.n, row, col) && i == Flat(q.n, row, col)
    requires 0 <= i < q.n * q.n && q.openSites[i]
    requires Sound(q.grid, GridGraph(q)) && Sound(q.full, FullGraph(q))
    ensures Sound(LinkBottom(LinkTop(q, row, i), row, i).grid, GridGraph(q))
    ensures Sound(LinkBottom(LinkTop(q, row, i), row, i).full, FullGraph(q))
  {
    var q1 := LinkTop(q, row, i);
    LinkTopSound(q, row, col, i);
    assert GridGraph(q1) == GridGraph(q) && FullGraph(q1) == FullGraph(q);
    LinkBottomSound(q1, row, col, i);
  }

  /** The unions with the open neighbours keep both structures sound. */
  lemma NeighborsSound(q: Percolation, row: int, col: int, i: int)
    requires Shape(q) && IsValid(q.n, row, col) && i == Flat(q.n, row, col)
    requires 0 <= i < q.n * q.n && q.openSites[i]
    requires Sound(q.grid, GridGraph(q)) && Sound(q.full, FullGraph(q))
    ensures Sound(LinkNeighbors(q, row, col, i).grid, GridGraph(q))
    ensures Sound(LinkNeighbors(q, row, col, i).full, FullGraph(q))
  {
    var a1 := LinkIfOpen(q, row - 1, col, i);
    LinkIfOpenSound(q, row, col, i, row - 1, col);
    assert GridGraph(a1) == GridGraph(q) && FullGraph(a1) == FullGraph(q);
    var a2 := LinkIfOpen(a1, row + 1, col, i);
    LinkIfOpenSound(a1, row, col, i, row + 1, col);
    assert GridGraph(a2) == GridGraph(q) && FullGraph(a2) == FullGraph(q);
    var a3 := LinkIfOpen(a2, row, col - 1, i);
    LinkIfOpenSound(a2, row, col, i, row, col - 1);
    assert GridGraph(a3) == GridGraph(q) && FullGraph(a3) == FullGraph(q);
    LinkIfOpenSound(a3, row, col, i, row, col + 1);
  }

  /** After all its unions, open has kept both structures sound. */
  lemma LinkedSound(q: Percolation, row: int, col: int, i: int)
    requires Shape(q) && IsValid(q.n, row, col) && i == Flat(q.n, row, col)
    requires 0 <= i < q.n * q.n && q.openSites[i]
    requires Sound(q.grid, GridGraph(q)) && Sound(q.full, FullGraph(q))
    ensures Sound(Linked(q, row, col, i).grid, GridGraph(q))
    ensures Sound(Linked(q, row, col, i).full, FullGraph(q))
  {
    var q2 := LinkBottom(LinkTop(q, row, i), row, i);
    EndsSound(q, row, col, i);
    assert GridGraph(q2) == GridGraph(q) && FullGraph(q2) == FullGraph(q);
    NeighborsSound(q2, row, col, i);
  }

  /** The unions with the virtual nodes join site i to the top (when it
      sits in the top row) and, in `grid`, to the bottom (when it sits in the
      bottom row). */
  lemma EndsJoined(q: Percolation, row: int, i: int)
    requires Shape(q) && 0 <= i < q.n * q.n
    requires row == 1 ==> UnionFind.Find(q.grid, i) != UnionFind.Find(q.grid, Top(q.n))
    ensures Finer(q.grid, LinkBottom(LinkTop(q, row, i), row, i).grid)
    ensures Finer(q.full, LinkBottom(LinkTop(q, row, i), row, i).full)
    ensures row == 1 ==> UnionFind.Connected(LinkBottom(LinkTop(q, row, i), row, i).grid, Top(q.n), i)
    ensures row == 1 ==> UnionFind.Connected(LinkBottom(LinkTop(q, row, i), row, i).full, Top(q.n), i)
    ensures row == q.n ==> UnionFind.Connected(LinkBottom(LinkTop(q, row, i), row, i).grid, Bottom(q.n), i)
  {
    var q1 := LinkTop(q, row, i);
    LinkTopJoins(q, row, i);
    LinkBottomJoins(q1, row, i);
    FinerTrans(q.grid, q1.grid, LinkBottom(q1, row, i).grid);
  }

  /** The unions with the neighbours join site i to each open one. */
  lemma NeighborsJoined(q: Percolation, row: int, col: int, i: int)
    requires Shape(q) && 0 <= i < q.n * q.n
    ensures Finer(q.grid, LinkNeighbors(q, row, col, i).grid)
    ensures Finer(q.full, LinkNeighbors(q, row, col, i).full)
    ensures NeighborsJoinedIn(LinkNeighbors(q, row, col, i).grid, GridGraph(q), row, col, i)
    ensures NeighborsJoinedIn(LinkNeighbors(q, row, col, i).full, FullGraph(q), row, col, i)
  {
    var a1 := LinkIfOpen(q, row - 1, col, i);
    LinkIfOpenJoins(q, row - 1, col, i);
    var a2 := LinkIfOpen(a1, row + 1, col, i);
    LinkIfOpenJoins(a1, row + 1, col, i);
    var a3 := LinkIfOpen(a2, row, col - 1, i);
    LinkIfOpenJoins(a2, row, col - 1, i);
    var r := LinkIfOpen(a3, row, col + 1, i);
    LinkIfOpenJoins(a3, row, col + 1, i);
    assert r == LinkNeighbors(q, row, col, i);
    FinerTrans(a2.grid, a3.grid, r.grid);
    FinerTrans(a1.grid, a2.grid, r.grid);
    FinerTrans(q.grid, a1.grid, r.grid);
    FinerTrans(a2.full, a3.full, r.full);
    FinerTrans(a1.full, a2.full, r.full);
    FinerTrans(q.full, a1.full, r.full);
  }

  /** After all its unions, open has joined site i to the top (when it sits
      in the top row), to the bottom in `grid` (when it sits in the bottom
      row) and to each open neighbour, and has pulled nothing apart. */
  lemma LinkedJoined(q: Percolation, row: int, col: int, i: int)
    requires Shape(q) && 0 <= i < q.n * q.n
    requires row == 1 ==> UnionFind.Find(q.grid, i) != UnionFind.Find(q.grid, Top(q.n))
    ensures Finer(q.grid, Linked(q, row, col, i).grid) && Finer(q.full, Linked(q, row, col, i).full)
    ensures JoinedAround(Linked(q, row, col, i).grid, GridGraph(q), row, col, i)
    ensures JoinedAround(Linked(q, row, col, i).full, FullGraph(q), row, col, i)
  {
    var q2 := LinkBottom(LinkTop(q, row, i), row, i);
    var r := LinkNeighbors(q2, row, col, i);
    EndsJoined(q, row, i);
    NeighborsJoined(q2, row, col, i);
    assert GridGraph(q2) == GridGraph(q) && FullGraph(q2) == FullGraph(q);
    FinerTrans(q.grid, q2.grid, r.grid);
    FinerTrans(q.full, q2.full, r.full);
  }

  /** The sites at coordinates one step apart are adjacent. */
  lemma NeighborAdjacent(n: int, row: int, col: int, row': int, col': int)
    requires IsValid(n, row, col) && IsValid(n, row', col')
    requires Abs(row' - row) + Abs(col' - col) == 1
    ensures 0 <= Flat(n, row', col') < n * n
    ensures Adjacent(Flat(n, row', col'), Flat(n, row, col), n)
  {
    FlatFacts(n, row, col);
    FlatFacts(n, row', col');
  }

  /** A site adjacent to the site at (row, col) is the site at one of the
      four neighbouring coordinates. */
  lemma NeighborCoordinates(n: int, row: int, col: int, b: int)
    requires IsValid(n, row, col) && 0 <= b < n * n && Adjacent(Flat(n, row, col), b, n)
    ensures IsValid(n, Row(b, n) + 1, Col(b, n) + 1) && b == Flat(n, Row(b, n) + 1, Col(b, n) + 1)
    ensures var row', col' := Row(b, n) + 1, Col(b, n) + 1;
            || (row' == row - 1 && col' == col) || (row' == row + 1 && col' == col)
            || (row' == row && col' == col - 1) || (row' == row && col' == col + 1)
  {
    FlatFacts(n, row, col);
    FlatIndexOnto(n, b);
  }

  /** The unions open made for site i, by the time it is done. */
  ghost predicate JoinedAround(u: UnionFind.UF, g: Graph, row: int, col: int, i: int)
    requires WellFormed(g) && UnionFind.Count(u) == Nodes(g) && 0 <= i < g.n * g.n
  {
    var n := g.n;
    && (row == 1 ==> UnionFind.Connected(u, Top(n), i))
    && (g.withBottom && row == n ==> UnionFind.Connected(u, Bottom(n), i))
    && NeighborsJoinedIn(u, g, row, col, i)
  }

  /** Site i is joined to each open site beside it. */
  ghost predicate NeighborsJoinedIn(u: UnionFind.UF, g: Graph, row: int, col: int, i: int)
    requires WellFormed(g) && UnionFind.Count(u) == Nodes(g) && 0 <= i < g.n * g.n
  {
    var n := g.n;
    && (IsValid(n, row - 1, col) && OpenSite(g, Flat(n, row - 1, col)) ==>
          UnionFind.Connected(u, Flat(n, row - 1, col), i))
    && (IsValid(n, row + 1, col) && OpenSite(g, Flat(n, row + 1, col)) ==>
          UnionFind.Connected(u, Flat(n, row + 1, col), i))
    && (IsValid(n, row, col - 1) && OpenSite(g, Flat(n, row, col - 1)) ==>
          UnionFind.Connected(u, Flat(n, row, col - 1), i))
    && (IsValid(n, row, col + 1) && OpenSite(g, Flat(n, row, col + 1)) ==>
          UnionFind.Connected(u, Flat(n, row, col + 1), i))
  }

  /** Once open has made its unions, every edge at site i is covered. */
  lemma IncidentCovered(u: UnionFind.UF, g: Graph, row: int, col: int, i: int, b: int)
    requires WellFormed(g) && UnionFind.Count(u) == Nodes(g)
    requires IsValid(g.n, row, col) && i == Flat(g.n, row, col) && 0 <= i < g.n * g.n
    requires JoinedAround(u, g, row, col, i)
    requires 0 <= b < Nodes(g) && Edge(g, i, b)
    ensures UnionFind.Connected(u, i, b)
  {
    FlatFacts(g.n, row, col);
    if 0 <= b < g.n * g.n {
      SiteEdge(g, i, b);
      NeighborCoordinates(g.n, row, col, b);
    }
  }

  lemma CountOpens(s: seq<bool>, i: int)
    requires 0 <= i < |s| && !s[i]
    ensures CountOpen(s[i := true]) == CountOpen(s) + 1
  {
  }

  /** open keeps the representation invariant: afterwards `grid` and `full`
      again join exactly what walks through the open sites join. */
  lemma OpenKeepsValid(p: Percolation, row: int, col: int)
    requires Valid(p) && IsValid(p.n, row, col)
    ensures Open(p, row, col).Ok? && Valid(Open(p, row, col).value)
  {
    FlatFacts(p.n, row, col);
    var i := Flat(p.n, row, col);
    if !p.openSites[i] {
      var q := p.(openSites := p.openSites[i := true]);
      TopGuardHolds(p, i);
      SoundGrows(p.grid, GridGraph(p), GridGraph(q));
      SoundGrows(p.full, FullGraph(p), FullGraph(q));
      LinkedSound(q, row, col, i);
      LinkedJoined(q, row, col, i);
      var r := Opened(p, row, col, i);
      assert Open(p, row, col) == Ok(r);
      CountOpens(p.openSites, i);
      OpenCovers(p.grid, GridGraph(p), r.grid, GridGraph(q), row, col, i);
      OpenCovers(p.full, FullGraph(p), r.full, FullGraph(q), row, col, i);
    }
  }

  /** The edges after opening site i are the old edges, which the old
      structure already covered, and the edges at i. */
  lemma OpenCovers(u: UnionFind.UF, g: Graph, v: UnionFind.UF, h: Graph, row: int, col: int, i: int)
    requires WellFormed(g) && Covers(u, g) && Finer(u, v)
    requires IsValid(g.n, row, col) && i == Flat(g.n, row, col) && 0 <= i < g.n * g.n
    requires !g.open[i] && h == g.(open := g.open[i := true])
    requires JoinedAround(v, h, row, col, i)
    ensures Covers(v, h)
  {
    FlatFacts(g.n, row, col);
    forall a, b | 0 <= a < Nodes(h) && 0 <= b < Nodes(h) && Edge(h, a, b)
      ensures UnionFind.Connected(v, a, b)
    {
      if a == i {
        IncidentCovered(v, h, row, col, i, b);
      } else if b == i {
        assert Edge(h, b, a);
        IncidentCovered(v, h, row, col, i, a);
      } else {
        assert Edge(g, a, b);
      }
    }
  }

  // ---------------------------------------------------------------------------
  // What open promises its callers

  /** After open the site is open, and opening it again changes nothing. */
  lemma OpenIdempotent(p: Percolation, row: int, col: int)
    requires Shape(p) && IsValid(p.n, row, col)
    ensures Open(p, row, col).Ok?
    ensures IsOpen(Open(p, row, col).value, row, col) == Ok(true)
    ensures Open(Open(p, row, col).value, row, col) == Open(p, row, col)
  {
    FlatFacts(p.n, row, col);
  }

  /** open blocks no site, and every other site keeps its state. */
  lemma OpenOnlyOpens(p: Percolation, row: int, col: int, row': int, col': int)
    requires Shape(p) && IsValid(p.n, row, col) && IsValid(p.n, row', col')
    ensures Open(p, row, col).Ok?
    ensures IsOpen(p, row', col') == Ok(true) ==> IsOpen(Open(p, row, col).value, row', col') == Ok(true)
    ensures (row', col') != (row, col) ==> IsOpen(Open(p, row, col).value, row', col') == IsOpen(p, row', col')
  {
    FlatFacts(p.n, row, col);
    FlatFacts(p.n, row', col');
    if Flat(p.n, row, col) == Flat(p.n, row', col') {
      FlatIndexInjective(p.n, row, col, row', col');
    }
  }

  /** The sites open after open are those open before together with the
      one opened: the graph only grows. */
  lemma OpenGrows(p: Percolation, row: int, col: int)
    requires Shape(p) && IsValid(p.n, row, col)
    ensures Open(p, row, col).Ok?
    ensures Grows(GridGraph(p), GridGraph(Open(p, row, col).value))
    ensures Grows(FullGraph(p), FullGraph(Open(p, row, col).value))
  {
    FlatFacts(p.n, row, col);
  }

  /** A site in the top row is full as soon as it is open. */
  lemma TopRowOpenIsFull(p: Percolation, col: int)
    requires Valid(p) && IsValid(p.n, 1, col)
    ensures Open(p, 1, col).Ok? && Valid(Open(p, 1, col).value)
    ensures IsFull(Open(p, 1, col).value, 1, col) == Ok(true)
  {
    OpenKeepsValid(p, 1, col);
    FlatFacts(p.n, 1, col);
    var q := Open(p, 1, col).value;
    var i := Flat(p.n, 1, col);
    assert SitePath(FullGraph(q), [i]);
    assert FedFromTop(FullGraph(q), i);
  }

  /** A full site stays full when another site opens. */
  lemma OpenKeepsFull(p: Percolation, row: int, col: int, row': int, col': int)
    requires Valid(p) && IsValid(p.n, row, col) && IsFull(p, row', col') == Ok(true)
    ensures Open(p, row, col).Ok? && Valid(Open(p, row, col).value)
    ensures IsFull(Open(p, row, col).value, row', col') == Ok(true)
  {
    OpenKeepsValid(p, row, col);
    OpenGrows(p, row, col);
    var g, h := FullGraph(p), FullGraph(Open(p, row, col).value);
    var ps :| SitePath(g, ps) && TopRow(g.n, ps[0]) && ps[|ps| - 1] == Flat(p.n, row', col');
    SitePathGrows(g, h, ps);
  }

  /** A system that percolates still percolates when another site opens. */
  lemma OpenKeepsPercolating(p: Percolation, row: int, col: int)
    requires Valid(p) && IsValid(p.n, row, col) && Percolates(p)
    ensures Open(p, row, col).Ok? && Valid(Open(p, row, col).value)
    ensures Percolates(Open(p, row, col).value)
  {
    OpenKeepsValid(p, row, col);
    OpenGrows(p, row, col);
    var g, h := GridGraph(p), GridGraph(Open(p, row, col).value);
    var ps :| SitePath(g, ps) && TopRow(g.n, ps[0]) && BottomRow(g.n, ps[|ps| - 1]);
    SitePathGrows(g, h, ps);
  }

  /** On a 1-by-1 grid, opening the only site makes the system percolate. */
  lemma SingleSitePercolates(p: Percolation)
    requires Valid(p) && p.n == 1
    ensures Open(p, 1, 1).Ok? && Valid(Open(p, 1, 1).value)
    ensures Percolates(Open(p, 1, 1).value)
  {
    OpenKeepsValid(p, 1, 1);
    var g := GridGraph(Open(p, 1, 1).value);
    assert SitePath(g, [0]);
  }
}
