/** The A* solver for the 8-puzzle. Two searches run in lockstep, one from the
    initial board and one from its twin; the first to take a goal board off
    its priority queue decides whether the puzzle is solvable. */
module Solvers {
  import opened Wrappers
  import opened Boards

  /** A search node: a board, the moves made to reach it, the node it was
      expanded from (None for the root), and its A* priority, computed once
      when the node is made. Being a datatype, the predecessor chain is finite
      and acyclic. */
  datatype SearchNode = SearchNode(board: Board, moves: int, previous: Option<SearchNode>, priority: int)

  /** The SearchNode constructor: priority is moves plus the Manhattan distance. */
  function NewNode(board: Board, moves: int, previous: Option<SearchNode>): SearchNode
    requires Valid(board)
  {
    SearchNode(board, moves, previous, moves + Manhattan(board))
  }

  /** SearchNode.compareTo: nodes are ordered by priority alone. */
  function CompareTo(a: SearchNode, b: SearchNode): (r: int)
    ensures r < 0 <==> a.priority < b.priority
    ensures r == 0 <==> a.priority == b.priority
    ensures r > 0 <==> a.priority > b.priority
  {
    a.priority - b.priority
  }

  // ---------------------------------------------------------------------------
  // The priority queue (algs4 MinPQ), by its contract

  /** x is a node of least priority in pq. */
  ghost predicate IsMin(x: SearchNode, pq: multiset<SearchNode>) {
    x in pq && forall y :: y in pq ==> CompareTo(x, y) <= 0
  }

  lemma MinExists(pq: multiset<SearchNode>)
    requires |pq| > 0
    ensures exists x :: IsMin(x, pq)
    decreases |pq|
  {
    var y :| y in pq;
    var rest := pq - multiset{y};
    if |rest| == 0 {
      assert forall z :: z in pq ==> z == y || z in rest;
      assert IsMin(y, pq);
    } else {
      MinExists(rest);
      var m :| IsMin(m, rest);
      assert forall z :: z in pq ==> z == y || z in rest;
      if y.priority < m.priority {
        assert IsMin(y, pq);
      } else {
        assert IsMin(m, pq);
      }
    }
  }

  /** MinPQ.delMin: some node of least priority, and the queue without it.
      Which of several equal-priority nodes comes out is left open, as the
      heap order of the library decides it. */
  ghost function DelMin(pq: multiset<SearchNode>): (r: (SearchNode, multiset<SearchNode>))
    requires |pq| > 0
    ensures IsMin(r.0, pq)
    ensures r.1 == pq - multiset{r.0} && |r.1| == |pq| - 1
  {
    MinExists(pq);
    var m :| IsMin(m, pq);
    (m, pq - multiset{m})
  }

  // ---------------------------------------------------------------------------
  // Expanding a node

  /** Moving to `board` would undo the move that produced `parent`. */
  predicate Backtracks(parent: SearchNode, board: Board) {
    parent.previous.Some? && board == parent.previous.value.board
  }

  /** The loop of addChildren over the boards nbs: one child per board, except
      a board equal to the grandparent's. */
  function ChildrenOf(parent: SearchNode, nbs: seq<Board>): (cs: seq<SearchNode>)
    requires forall k :: 0 <= k < |nbs| ==> Valid(nbs[k])
    requires parent.previous.Some? ==> Square(parent.previous.value.board)
    ensures forall c :: c in cs ==>
              && c.previous == Some(parent) && c.moves == parent.moves + 1
              && c.board in nbs && !Backtracks(parent, c.board)
              && c.priority == c.moves + Manhattan(c.board)
  {
    if |nbs| == 0 then []
    else
      var child := nbs[0];
      assert Valid(child);
      var rest := ChildrenOf(parent, nbs[1..]);
      if parent.previous.None? || !Equals(child, Some(parent.previous.value.board)) then
        [NewNode(child, parent.moves + 1, Some(parent))] + rest
      else
        rest
  }

  /** One step of the addChildren loop: the first board gets a node unless it
      is the grandparent's. */
  lemma ChildrenOfStep(parent: SearchNode, nbs: seq<Board>)
    requires forall k :: 0 <= k < |nbs| ==> Valid(nbs[k])
    requires parent.previous.Some? ==> Square(parent.previous.value.board)
    requires |nbs| > 0
    ensures ChildrenOf(parent, nbs)
         == if Backtracks(parent, nbs[0]) then ChildrenOf(parent, nbs[1..])
            else [NewNode(nbs[0], parent.moves + 1, Some(parent))] + ChildrenOf(parent, nbs[1..])
  {
  }

  /** Every board other than the grandparent's gets a node. */
  lemma {:induction false} ChildrenOfCovers(parent: SearchNode, nbs: seq<Board>, b: Board)
    requires forall k :: 0 <= k < |nbs| ==> Valid(nbs[k])
    requires parent.previous.Some? ==> Square(parent.previous.value.board)
    requires b in nbs && !Backtracks(parent, b)
    ensures exists c :: c in ChildrenOf(parent, nbs) && c.board == b
  {
    ChildrenOfStep(parent, nbs);
    if nbs[0] == b {
      assert NewNode(b, parent.moves + 1, Some(parent)) in ChildrenOf(parent, nbs);
    } else {
      ChildrenOfCovers(parent, nbs[1..], b);
    }
  }

  /** Over distinct boards, no board gets two nodes. */
  lemma {:induction false} ChildrenOfDistinct(parent: SearchNode, nbs: seq<Board>)
    requires forall k :: 0 <= k < |nbs| ==> Valid(nbs[k])
    requires parent.previous.Some? ==> Square(parent.previous.value.board)
    requires Distinct(nbs)
    ensures DistinctBoards(ChildrenOf(parent, nbs))
  {
    if |nbs| > 0 {
      var rest := nbs[1..];
      assert Distinct(rest);
      ChildrenOfDistinct(parent, rest);
      ChildrenOfStep(parent, nbs);
      if !Backtracks(parent, nbs[0]) {
        var rs := ChildrenOf(parent, rest);
        assert nbs[0] !in rest;
        assert forall k :: 0 <= k < |rs| ==> rs[k] in rs;
        ConsDistinctBoards(NewNode(nbs[0], parent.moves + 1, Some(parent)), rs);
      }
    }
  }

  /** No two nodes of cs hold the same board. */
  predicate DistinctBoards(cs: seq<SearchNode>) {
    forall i, j :: 0 <= i < j < |cs| ==> cs[i].board != cs[j].board
  }

  lemma ConsDistinctBoards(c: SearchNode, rs: seq<SearchNode>)
    requires DistinctBoards(rs)
    requires forall k :: 0 <= k < |rs| ==> rs[k].board != c.board
    ensures DistinctBoards([c] + rs)
  {
    var cs := [c] + rs;
    forall i, j | 0 <= i < j < |cs|
      ensures cs[i].board != cs[j].board
    {
      assert cs[j] == rs[j - 1];
      if i > 0 {
        assert cs[i] == rs[i - 1];
      }
    }
  }

  /** Nodes with different boards are different nodes. */
  lemma DistinctBoardsUnique(cs: seq<SearchNode>)
    requires DistinctBoards(cs)
    ensures forall i, j :: 0 <= i < j < |cs| ==> cs[i] != cs[j]
  {
  }

  /** Over distinct boards every board gets a node, except the grandparent's
      board if it is among them: one node per kept neighbour. */
  lemma {:induction false} ChildrenOfCount(parent: SearchNode, nbs: seq<Board>)
    requires forall k :: 0 <= k < |nbs| ==> Valid(nbs[k])
    requires parent.previous.Some? ==> Square(parent.previous.value.board)
    requires Distinct(nbs)
    ensures (forall k :: 0 <= k < |nbs| ==> !Backtracks(parent, nbs[k])) ==> |ChildrenOf(parent, nbs)| == |nbs|
    ensures (exists k :: 0 <= k < |nbs| && Backtracks(parent, nbs[k])) ==> |ChildrenOf(parent, nbs)| == |nbs| - 1
  {
    if |nbs| > 0 {
      var rest := nbs[1..];
      assert Distinct(rest);
      ChildrenOfCount(parent, rest);
      ChildrenOfStep(parent, nbs);
      assert forall k :: 1 <= k < |nbs| ==> nbs[k] == rest[k - 1];
      if Backtracks(parent, nbs[0]) {
        assert forall k :: 0 <= k < |rest| ==> rest[k] != nbs[0];
      }
    }
  }

  /** No board occurs twice in bs. */
  predicate Distinct(bs: seq<Board>) {
    forall i, j :: 0 <= i < j < |bs| ==> bs[i] != bs[j]
  }

  /** The nodes addChildren inserts for parent. */
  function Children(parent: SearchNode): seq<SearchNode>
    requires Valid(parent.board)
    requires parent.previous.Some? ==> Square(parent.previous.value.board)
  {
    ChildrenOf(parent, Neighbors(parent.board))
  }

  /** The neighbours of a board are distinct, so no two children are alike. */
  lemma ChildrenUnique(parent: SearchNode)
    requires Valid(parent.board)
    requires parent.previous.Some? ==> Square(parent.previous.value.board)
    ensures forall i, j :: 0 <= i < j < |Children(parent)| ==> Children(parent)[i] != Children(parent)[j]
  {
    var nbs := Neighbors(parent.board);
    NeighborsDistinct(parent.board);
    assert Distinct(nbs);
    ChildrenOfDistinct(parent, nbs);
    DistinctBoardsUnique(Children(parent));
  }

  /** Solver.addChildren: the children of parent inserted into the queue. */
  function AddChildren(parent: SearchNode, pq: multiset<SearchNode>): (r: multiset<SearchNode>)
    requires Valid(parent.board)
    requires parent.previous.Some? ==> Square(parent.previous.value.board)
    ensures |r| >= |pq| + 1
    ensures pq <= r && |r| == |pq| + |Children(parent)|
    ensures forall x :: x in r ==> x in pq || x in Children(parent)
    ensures forall c :: c in Children(parent) ==> r[c] == pq[c] + 1
  {
    ChildrenNonEmpty(parent);
    ChildrenUnique(parent);
    OccursOnce(Children(parent));
    pq + multiset(Children(parent))
  }

  /** Each element of a sequence without repeats occurs in it once. */
  lemma {:induction false} OccursOnce(cs: seq<SearchNode>)
    requires forall i, j :: 0 <= i < j < |cs| ==> cs[i] != cs[j]
    ensures forall c :: c in cs ==> multiset(cs)[c] == 1
  {
    if |cs| > 0 {
      var rest := cs[1..];
      OccursOnce(rest);
      assert cs == [cs[0]] + rest;
      assert cs[0] !in rest;
      assert forall c :: c in rest ==> c != cs[0];
    }
  }

  /** Every board has at least two neighbours and they differ, so at most one
      of them is the grandparent's: a node always has a child. */
  lemma ChildrenNonEmpty(parent: SearchNode)
    requires Valid(parent.board)
    requires parent.previous.Some? ==> Square(parent.previous.value.board)
    ensures |Children(parent)| >= 1
  {
    var nbs := Neighbors(parent.board);
    NeighborsAreSlides(parent.board);
    assert nbs[0] != nbs[1];
    var k := if Backtracks(parent, nbs[0]) then 1 else 0;
    assert !Backtracks(parent, nbs[k]);
    ChildrenOfCovers(parent, nbs, nbs[k]);
    var c :| c in Children(parent) && c.board == nbs[k];
  }

  // ---------------------------------------------------------------------------
  // Predecessor chains

  /** x heads a chain of search nodes back to a root holding `root`: moves
      drop by one per step down to 0 at the root, each board is a neighbour
      of its predecessor's, and every priority is moves plus Manhattan. */
  ghost predicate Chain(x: SearchNode, root: Board)
    decreases x
  {
    && Valid(x.board)
    && x.priority == x.moves + Manhattan(x.board)
    && match x.previous
       case None => x.moves == 0 && x.board == root
       case Some(p) => Chain(p, root) && x.moves == p.moves + 1 && x.board in Neighbors(p.board)
  }

  lemma ChildrenChained(parent: SearchNode, root: Board)
    requires Chain(parent, root)
    requires parent.previous.Some? ==> Square(parent.previous.value.board)
    ensures forall c :: c in Children(parent) ==> Chain(c, root)
  {
  }

  /** The boards of a chain from its root to x. */
  function Path(x: SearchNode): seq<Board>
    decreases x
  {
    match x.previous
    case None => [x.board]
    case Some(p) => Path(p) + [x.board]
  }

  /** A sequence of legal boards, each a one-slide move from the one before. */
  ghost predicate IsWalk(ps: seq<Board>) {
    && (forall k :: 0 <= k < |ps| ==> Valid(ps[k]))
    && (forall k :: 0 <= k < |ps| - 1 ==> Valid(ps[k]) && ps[k + 1] in Neighbors(ps[k]))
  }

  lemma {:induction false} PathFacts(x: SearchNode, root: Board)
    requires Chain(x, root)
    ensures |Path(x)| == x.moves + 1
    ensures Path(x)[0] == root && Path(x)[|Path(x)| - 1] == x.board
    ensures IsWalk(Path(x))
    decreases x
  {
    match x.previous
    case None =>
    case Some(p) =>
      PathFacts(p, root);
      WalkExtends(Path(p), x.board);
  }

  /** A walk ending at a board extends by one of that board's neighbours. */
  lemma WalkExtends(ps: seq<Board>, c: Board)
    requires IsWalk(ps) && |ps| >= 1 && Valid(c) && c in Neighbors(ps[|ps| - 1])
    ensures IsWalk(ps + [c])
  {
    var qs := ps + [c];
    forall k | 0 <= k < |qs| - 1
      ensures Valid(qs[k]) && qs[k + 1] in Neighbors(qs[k])
    {
      if k < |ps| - 1 {
        assert qs[k] == ps[k] && qs[k + 1] == ps[k + 1];
      }
    }
  }

  /** The loop of Solver.solution: the boards pushed onto a stack while
      walking back from x, the stack listed from its top. */
  function Unwind(x: SearchNode, stack: seq<Board>): seq<Board>
    decreases x
  {
    match x.previous
    case None => stack
    case Some(p) => Unwind(p, [p.board] + stack)
  }

  lemma {:induction false} UnwindIsPath(x: SearchNode, s: seq<Board>)
    ensures Unwind(x, [x.board] + s) == Path(x) + s
    decreases x
  {
    match x.previous
    case None =>
    case Some(p) =>
      UnwindIsPath(p, [x.board] + s);
      assert [p.board] + ([x.board] + s) == [p.board] + [x.board] + s;
  }

  // ---------------------------------------------------------------------------
  // The search

  /** The state of one side of the search: a queue of nodes chained to root. */
  ghost predicate Frontier(pq: multiset<SearchNode>, root: Board) {
    |pq| >= 1 && forall x :: x in pq ==> Chain(x, root)
  }

  datatype Outcome = Found(node: SearchNode) | TwinFound(node: SearchNode) | OutOfFuel

  /** One expansion step: take a least node off the queue and insert its children. */
  ghost function Expand(pq: multiset<SearchNode>, root: Board): (r: (SearchNode, multiset<SearchNode>))
    requires Frontier(pq, root)
    ensures IsMin(r.0, pq) && Chain(r.0, root) && Frontier(r.1, root)
  {
    var (p, rest) := DelMin(pq);
    ExpandStep(pq, root, p);
    (p, AddChildren(p, rest))
  }

  /** What one round does to the queue: the least node is taken off, every
      other node stays, and exactly that node's children come in. */
  lemma ExpandMoves(pq: multiset<SearchNode>, root: Board)
    requires Frontier(pq, root)
    ensures var r := Expand(pq, root);
            && pq - multiset{r.0} <= r.1
            && |r.1| == |pq| - 1 + |Children(r.0)|
            && r.1 - (pq - multiset{r.0}) == multiset(Children(r.0))
  {
    var r := Expand(pq, root);
    ExpandStep(pq, root, r.0);
    ExpandCounts(pq, r.0);
  }

  /** Taking a node of a frontier off and adding its children leaves a
      frontier. */
  lemma ExpandStep(pq: multiset<SearchNode>, root: Board, p: SearchNode)
    requires Frontier(pq, root) && p in pq
    ensures Chain(p, root)
    ensures Frontier(AddChildren(p, pq - multiset{p}), root)
  {
    var rest := pq - multiset{p};
    ChildrenChained(p, root);
    assert forall x :: x in rest ==> x in pq;
  }

  /** Taking p off and adding its children keeps the other nodes and adds
      exactly the children. */
  lemma ExpandCounts(pq: multiset<SearchNode>, p: SearchNode)
    requires p in pq && Valid(p.board)
    requires p.previous.Some? ==> Square(p.previous.value.board)
    ensures var rest, next := pq - multiset{p}, AddChildren(p, pq - multiset{p});
            && rest <= next
            && |next| == |pq| - 1 + |Children(p)|
            && next - rest == multiset(Children(p))
  {
    var rest := pq - multiset{p};
    assert AddChildren(p, rest) == rest + multiset(Children(p));
    AddedBack(rest, multiset(Children(p)));
  }

  lemma AddedBack(a: multiset<SearchNode>, b: multiset<SearchNode>)
    ensures (a + b) - a == b
  {
  }

  /** The while loop of Solver.solve, allowed at most `fuel` rounds. It stops
      once either side's current node is a goal; the original side wins a tie. */
  ghost function Search(parent: SearchNode, pq: multiset<SearchNode>,
                        twinParent: SearchNode, twinPq: multiset<SearchNode>,
                        root: Board, twinRoot: Board, fuel: nat): (o: Outcome)
    requires Chain(parent, root) && Frontier(pq, root)
    requires Chain(twinParent, twinRoot) && Frontier(twinPq, twinRoot)
    ensures o.Found? ==> Chain(o.node, root) && IsGoal(o.node.board)
    ensures o.TwinFound? ==> Chain(o.node, twinRoot) && IsGoal(o.node.board)
    ensures IsGoal(parent.board) ==> o == Found(parent)
    ensures !IsGoal(parent.board) && IsGoal(twinParent.board) ==> o == TwinFound(twinParent)
    ensures o.OutOfFuel? ==> !IsGoal(parent.board) && !IsGoal(twinParent.board)
    decreases fuel
  {
    if !IsGoal(parent.board) && !IsGoal(twinParent.board) then
      if fuel == 0 then OutOfFuel
      else
        var side, twinSide := Expand(pq, root), Expand(twinPq, twinRoot);
        Search(side.0, side.1, twinSide.0, twinSide.1, root, twinRoot, fuel - 1)
    else if IsGoal(parent.board) then Found(parent)
    else TwinFound(twinParent)
  }

  /** The Solver object: the goal node of the original side, if it won. */
  datatype Solver = Solver(solved: Option<SearchNode>)

  datatype SolveError = Thrown(e: Exception) | FuelExhausted

  /** The state of a solver built for `initial`: a solved node is a goal
      at the head of a chain from the initial board. */
  ghost predicate Consistent(s: Solver, initial: Board) {
    s.solved.Some? ==> Chain(s.solved.value, initial) && IsGoal(s.solved.value.board)
  }

  /** The constructor Solver(initial) followed by solve(). None stands for a
      null board; the search gets `fuel` rounds of its loop. */
  ghost function Solve(initial: Option<Board>, fuel: nat): (r: Result<Solver, SolveError>)
    requires initial.Some? ==> Valid(initial.value)
    ensures initial.None? ==> r == Err(Thrown(IllegalArgument))
    ensures initial.Some? ==> r.Ok? || r == Err(FuelExhausted)
    ensures initial.Some? && r.Ok? ==> Consistent(r.value, initial.value)
    ensures initial.Some? && r.Ok? && !IsSolvable(r.value) ==>
              exists x :: Chain(x, Twin(initial.value)) && IsGoal(x.board)
  {
    match initial
    case None => Err(Thrown(IllegalArgument))
    case Some(b) => Conclude(Run(b, fuel), b)
  }

  /** The body of solve: the first round on each side, then the loop. */
  ghost function Run(b: Board, fuel: nat): (o: Outcome)
    requires Valid(b)
    ensures o.Found? ==> Chain(o.node, b) && IsGoal(o.node.board)
    ensures o.TwinFound? ==> Chain(o.node, Twin(b)) && IsGoal(o.node.board)
  {
    var twin := Twin(b);
    RootFrontier(b);
    RootFrontier(twin);
    var side := Expand(multiset{NewNode(b, 0, None)}, b);
    var twinSide := Expand(multiset{NewNode(twin, 0, None)}, twin);
    Search(side.0, side.1, twinSide.0, twinSide.1, b, twin, fuel)
  }

  /** A queue holding only the root node is a frontier for its board. */
  lemma RootFrontier(b: Board)
    requires Valid(b)
    ensures Frontier(multiset{NewNode(b, 0, None)}, b)
  {
  }

  /** The end of solve: a goal reached from the initial board is kept; one
      reached from the twin marks the board unsolvable. */
  ghost function Conclude(o: Outcome, b: Board): (r: Result<Solver, SolveError>)
    requires Valid(b)
    requires o.Found? ==> Chain(o.node, b) && IsGoal(o.node.board)
    requires o.TwinFound? ==> Chain(o.node, Twin(b)) && IsGoal(o.node.board)
    ensures r.Ok? || r == Err(FuelExhausted)
    ensures r.Ok? ==> Consistent(r.value, b)
    ensures r.Ok? && !IsSolvable(r.value) ==> exists x :: Chain(x, Twin(b)) && IsGoal(x.board)
    ensures o.Found? ==> r.Ok? && r.value.solved == Some(o.node)
    ensures o.TwinFound? ==> r.Ok? && !IsSolvable(r.value)
    ensures o.OutOfFuel? ==> r.Err?
  {
    if o.Found? then
      Ok(Solver(Some(o.node)))
    else if o.TwinFound? then
      assert Chain(o.node, Twin(b)) && IsGoal(o.node.board);
      Ok(Solver(None))
    else
      Err(FuelExhausted)
  }

  function IsSolvable(s: Solver): bool {
    s.solved.Some?
  }

  /** Solver.moves: -1 for an unsolvable board. */
  function Moves(s: Solver): int {
    if s.solved.None? then -1 else s.solved.value.moves
  }

  /** Solver.solution: None (null) for an unsolvable board. */
  function Solution(s: Solver): Option<seq<Board>> {
    match s.solved
    case None => None
    case Some(x) => Some(Unwind(x, [x.board]))
  }

  /** What a finished solver reports: a solution exactly when it is solvable,
      running from the initial board to a goal in Moves() one-slide steps. */
  lemma SolutionFacts(s: Solver, initial: Board)
    requires Consistent(s, initial)
    ensures IsSolvable(s) <==> Solution(s).Some?
    ensures !IsSolvable(s) ==> Moves(s) == -1
    ensures IsSolvable(s) ==>
              var ps := Solution(s).value;
              && Moves(s) >= 0 && |ps| == Moves(s) + 1
              && ps[0] == initial && Square(ps[|ps| - 1]) && IsGoal(ps[|ps| - 1])
              && IsWalk(ps)
  {
    if s.solved.Some? {
      var x := s.solved.value;
      UnwindIsPath(x, []);
      assert [x.board] + [] == [x.board];
      PathFacts(x, initial);
    }
  }

  /** A board that is already the goal is solved in zero moves, whatever the
      fuel. */
  lemma SolveGoalBoard(b: Board, fuel: nat)
    requires Valid(b) && IsGoal(b)
    ensures Solve(Some(b), fuel).Ok?
    ensures var s := Solve(Some(b), fuel).value;
            IsSolvable(s) && Moves(s) == 0 && Solution(s) == Some([b])
  {
    var twin := Twin(b);
    RootFrontier(b);
    RootFrontier(twin);
    var side := Expand(multiset{NewNode(b, 0, None)}, b);
    var twinSide := Expand(multiset{NewNode(twin, 0, None)}, twin);
    assert side.0 in multiset{NewNode(b, 0, None)};
  }

  /** A board that is not the goal but whose twin is is found unsolvable
      after the first round, whatever the fuel. */
  lemma SolveTwinGoalBoard(b: Board, fuel: nat)
    requires Valid(b) && !IsGoal(b) && IsGoal(Twin(b))
    ensures Solve(Some(b), fuel) == Ok(Solver(None))
  {
    var twin := Twin(b);
    RootFrontier(b);
    RootFrontier(twin);
    var side := Expand(multiset{NewNode(b, 0, None)}, b);
    var twinSide := Expand(multiset{NewNode(twin, 0, None)}, twin);
    assert side.0 in multiset{NewNode(b, 0, None)};
    assert twinSide.0 in multiset{NewNode(twin, 0, None)};
  }
}
