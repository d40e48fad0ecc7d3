/** The 8-puzzle board: an immutable n-by-n grid of sliding tiles, stored row
    by row in one sequence, with the blank written as 0. Every operation is a
    pure function of the board, so no operation can change its receiver. */
module Boards {
  import opened Wrappers
  import opened Grid

  datatype Board = Board(tiles: seq<int>, n: int)

  /** The tile sequence has the n * n cells of an n-by-n grid. */
  predicate Square(b: Board) {
    b.n >= 0 && |b.tiles| == b.n * b.n
  }

  /** A puzzle position: n >= 2, and the cells hold every value 0 .. n*n - 1
      exactly once. */
  predicate Valid(b: Board) {
    && b.n >= 2
    && |b.tiles| == b.n * b.n
    && (forall i :: 0 <= i < |b.tiles| ==> 0 <= b.tiles[i] < |b.tiles|)
    && (forall i, j :: 0 <= i < |b.tiles| && 0 <= j < |b.tiles| && i != j ==> b.tiles[i] != b.tiles[j])
    && (forall v :: 0 <= v < |b.tiles| ==> v in b.tiles)
  }

  lemma ValidIsSquare(b: Board)
    requires Valid(b)
    ensures Square(b) && |b.tiles| >= 4
  {
    MulAtLeast(b.n, b.n);
    MulAtLeast(2, b.n);
  }

  // ---------------------------------------------------------------------------
  // Construction and dimension

  /** The rows of a grid laid end to end. */
  function Flatten(rows: seq<seq<int>>): seq<int> {
    if |rows| == 0 then [] else rows[0] + Flatten(rows[1..])
  }

  lemma {:induction false} FlattenLength(rows: seq<seq<int>>, w: nat)
    requires forall k :: 0 <= k < |rows| ==> |rows[k]| == w
    ensures |Flatten(rows)| == |rows| * w
  {
    if |rows| > 0 {
      FlattenLength(rows[1..], w);
    }
  }

  lemma {:induction false} FlattenCell(rows: seq<seq<int>>, w: nat, r: int, c: int, i: int)
    requires forall k :: 0 <= k < |rows| ==> |rows[k]| == w
    requires 0 <= r < |rows| && 0 <= c < w && i == r * w + c
    ensures 0 <= i < |Flatten(rows)| && Flatten(rows)[i] == rows[r][c]
  {
    FlattenLength(rows, w);
    if r > 0 {
      FlattenCell(rows[1..], w, r - 1, c, i - w);
      FlattenLength(rows[1..], w);
    }
  }

  lemma FlattenCells(rows: seq<seq<int>>, w: nat)
    requires forall k :: 0 <= k < |rows| ==> |rows[k]| == w
    ensures forall r, c :: 0 <= r < |rows| && 0 <= c < w ==>
              0 <= At(r, c, w) < |Flatten(rows)| && Flatten(rows)[At(r, c, w)] == rows[r][c]
  {
    forall r, c | 0 <= r < |rows| && 0 <= c < w
      ensures 0 <= At(r, c, w) < |Flatten(rows)| && Flatten(rows)[At(r, c, w)] == rows[r][c]
    {
      FlattenCell(rows, w, r, c, At(r, c, w));
    }
  }

  /** The public constructor: the n-by-n array `rows` copied row by row, so
      that cell (r, c) of the board holds rows[r][c]. */
  function FromRows(rows: seq<seq<int>>): (b: Board)
    requires forall r :: 0 <= r < |rows| ==> |rows[r]| == |rows|
    ensures Square(b) && Dimension(b) == |rows|
    ensures forall r, c :: 0 <= r < b.n && 0 <= c < b.n ==>
              0 <= At(r, c, b.n) < |b.tiles| && b.tiles[At(r, c, b.n)] == rows[r][c]
  {
    FlattenLength(rows, |rows|);
    FlattenCells(rows, |rows|);
    Board(Flatten(rows), |rows|)
  }

  function Dimension(b: Board): int {
    b.n
  }

  // ---------------------------------------------------------------------------
  // The goal board

  /** What cell i of an n*n-cell goal board holds: i + 1, and the blank last. */
  function GoalCell(len: int, i: int): int {
    if i < len - 1 then i + 1 else 0
  }

  function Goal(n: nat): seq<int> {
    seq(n * n, i => GoalCell(n * n, i))
  }

  /** The scan of isGoal, from cell i on: it stops at the first cell that
      disagrees with the goal. */
  function ScanGoal(t: seq<int>, i: nat): (r: bool)
    requires i <= |t|
    ensures r <==> forall k :: i <= k < |t| ==> t[k] == GoalCell(|t|, k)
    decreases |t| - i
  {
    if i == |t| then true
    else if i == |t| - 1 && t[i] != 0 then false
    else if i < |t| - 1 && t[i] != i + 1 then false
    else ScanGoal(t, i + 1)
  }

  /** Board.isGoal: cell i holds i + 1, except the last cell, which is blank. */
  function IsGoal(b: Board): (g: bool)
    requires Square(b)
    ensures g <==> forall k :: 0 <= k < |b.tiles| ==> b.tiles[k] == GoalCell(|b.tiles|, k)
  {
    ScanGoal(b.tiles, 0)
  }

  /** The goal board is unique: isGoal holds of exactly the board Goal(n). */
  lemma GoalIsUnique(b: Board)
    requires Square(b)
    ensures IsGoal(b) <==> b.tiles == Goal(b.n)
  {
    if IsGoal(b) {
      assert b.tiles == Goal(b.n);
    }
  }

  // ---------------------------------------------------------------------------
  // Hamming distance

  /** A tile, not the blank, that is not in its goal cell. */
  predicate Misplaced(t: seq<int>, i: int)
    requires 0 <= i < |t|
  {
    t[i] != 0 && t[i] - 1 != i
  }

  /** The number of misplaced tiles among the first k cells. */
  function CountMisplaced(t: seq<int>, k: int): (c: nat)
    requires 0 <= k <= |t|
    ensures c <= k
  {
    if k == 0 then 0
    else CountMisplaced(t, k - 1) + (if Misplaced(t, k - 1) then 1 else 0)
  }

  function Hamming(b: Board): nat {
    CountMisplaced(b.tiles, |b.tiles|)
  }

  lemma {:induction false} CountMisplacedZero(t: seq<int>, k: int)
    requires 0 <= k <= |t|
    ensures CountMisplaced(t, k) == 0 <==> forall i :: 0 <= i < k ==> !Misplaced(t, i)
  {
    if k > 0 {
      CountMisplacedZero(t, k - 1);
    }
  }

  /** A blank among the first k cells is never counted. */
  lemma {:induction false} CountMisplacedSkipsBlank(t: seq<int>, k: int, z: int)
    requires 0 <= z < k <= |t| && t[z] == 0
    ensures CountMisplaced(t, k) <= k - 1
  {
    if z < k - 1 {
      CountMisplacedSkipsBlank(t, k - 1, z);
    }
  }

  /** On a legal board every tile is in place exactly when the board is the goal. */
  lemma InPlaceIsGoal(b: Board)
    requires Valid(b)
    ensures (forall i :: 0 <= i < |b.tiles| ==> !Misplaced(b.tiles, i)) <==> IsGoal(b)
  {
    var t, len := b.tiles, |b.tiles|;
    ValidIsSquare(b);
    if forall i :: 0 <= i < len ==> !Misplaced(t, i) {
      forall k | 0 <= k < len
        ensures t[k] == GoalCell(len, k)
      {
        if k < len - 1 {
          // the tile k + 1 is somewhere, and in place, so here
          assert k + 1 in t;
          var j :| 0 <= j < len && t[j] == k + 1;
          assert !Misplaced(t, j);
          assert j == k;
        } else {
          assert !Misplaced(t, k);
        }
      }
      assert t == Goal(b.n);
    }
    if IsGoal(b) {
      forall i | 0 <= i < len
        ensures !Misplaced(t, i)
      {
        assert t[i] == GoalCell(len, i);
      }
    }
  }

  lemma HammingBounds(b: Board)
    requires Valid(b)
    ensures Hamming(b) <= |b.tiles| - 1
    ensures Hamming(b) == 0 <==> IsGoal(b)
  {
    ValidIsSquare(b);
    assert 0 in b.tiles;
    var z :| 0 <= z < |b.tiles| && b.tiles[z] == 0;
    CountMisplacedSkipsBlank(b.tiles, |b.tiles|, z);
    CountMisplacedZero(b.tiles, |b.tiles|);
    InPlaceIsGoal(b);
  }

  // ---------------------------------------------------------------------------
  // Manhattan distance

  /** How far the tile in cell i is from its goal cell, counted in rows plus
      columns; the blank contributes nothing. */
  function TileDistance(t: seq<int>, n: int, i: int): nat
    requires n > 0 && 0 <= i < |t| && t[i] >= 0
  {
    if t[i] == 0 then 0
    else
      var goalRow, goalCol := Row(t[i] - 1, n), Col(t[i] - 1, n);
      Abs(goalRow - Row(i, n)) + Abs(goalCol - Col(i, n))
  }

  function SumDistances(t: seq<int>, n: int, k: int): nat
    requires n > 0 && 0 <= k <= |t|
    requires forall i :: 0 <= i < k ==> t[i] >= 0
  {
    if k == 0 then 0 else SumDistances(t, n, k - 1) + TileDistance(t, n, k - 1)
  }

  function Manhattan(b: Board): nat
    requires Valid(b)
  {
    SumDistances(b.tiles, b.n, |b.tiles|)
  }

  /** A misplaced tile is at least one step from home; a tile in place is zero. */
  lemma TileDistanceMisplaced(t: seq<int>, n: int, i: int)
    requires n > 0 && 0 <= i < |t| && t[i] >= 0
    ensures Misplaced(t, i) ==> TileDistance(t, n, i) >= 1
    ensures !Misplaced(t, i) ==> TileDistance(t, n, i) == 0
  {
    if t[i] != 0 {
      var g := t[i] - 1;
      assert g == Row(g, n) * n + Col(g, n);
      assert i == Row(i, n) * n + Col(i, n);
    }
  }

  lemma {:induction false} SumDistancesVsCount(t: seq<int>, n: int, k: int)
    requires n > 0 && 0 <= k <= |t|
    requires forall i :: 0 <= i < k ==> t[i] >= 0
    ensures SumDistances(t, n, k) >= CountMisplaced(t, k)
    ensures SumDistances(t, n, k) == 0 <==> CountMisplaced(t, k) == 0
  {
    if k > 0 {
      SumDistancesVsCount(t, n, k - 1);
      TileDistanceMisplaced(t, n, k - 1);
    }
  }

  lemma ManhattanBounds(b: Board)
    requires Valid(b)
    ensures Manhattan(b) >= Hamming(b)
    ensures Manhattan(b) == 0 <==> IsGoal(b)
  {
    SumDistancesVsCount(b.tiles, b.n, |b.tiles|);
    HammingBounds(b);
  }

  // ---------------------------------------------------------------------------
  // Equality

  /** The comparison loop of equals, from cell i on. */
  function SameCells(a: seq<int>, c: seq<int>, i: nat): (r: bool)
    requires |a| == |c| && i <= |a|
    ensures r <==> a[i..] == c[i..]
    decreases |a| - i
  {
    if i == |a| then true
    else if a[i] != c[i] then false
    else
      assert a[i..] == [a[i]] + a[i + 1..] && c[i..] == [c[i]] + c[i + 1..];
      SameCells(a, c, i + 1)
  }

  /** Board.equals; `None` stands for a null argument. */
  function Equals(a: Board, y: Option<Board>): (r: bool)
    requires Square(a)
    requires y.Some? ==> Square(y.value)
    ensures r <==> y == Some(a)
  {
    match y
    case None => false
    case Some(c) =>
      if Dimension(a) != Dimension(c) then false
      else
        assert a.tiles[0..] == a.tiles && c.tiles[0..] == c.tiles;
        SameCells(a.tiles, c.tiles, 0)
  }

  // ---------------------------------------------------------------------------
  // Swapping two cells

  /** A copy of t with cells i and j exchanged. */
  function Swap(t: seq<int>, i: int, j: int): (r: seq<int>)
    requires 0 <= i < |t| && 0 <= j < |t|
    ensures |r| == |t| && r[i] == t[j] && r[j] == t[i]
    ensures forall k :: 0 <= k < |t| && k != i && k != j ==> r[k] == t[k]
    ensures multiset(r) == multiset(t)
  {
    t[i := t[j]][j := t[i]]
  }

  lemma SwapValid(b: Board, i: int, j: int)
    requires Valid(b) && 0 <= i < |b.tiles| && 0 <= j < |b.tiles|
    ensures Valid(Board(Swap(b.tiles, i, j), b.n))
  {
    var t, r := b.tiles, Swap(b.tiles, i, j);
    forall v | 0 <= v < |t|
      ensures v in r
    {
      assert v in t;
      assert v in multiset(t);
    }
  }

  // ---------------------------------------------------------------------------
  // The blank

  /** The index the scan `while (board[empty] != 0) empty++` stops at. */
  function BlankFrom(t: seq<int>, i: nat): (e: nat)
    requires i <= |t| && exists k :: i <= k < |t| && t[k] == 0
    ensures i <= e < |t| && t[e] == 0
    ensures forall k :: i <= k < e ==> t[k] != 0
    decreases |t| - i
  {
    if t[i] == 0 then i else BlankFrom(t, i + 1)
  }

  function Blank(b: Board): (e: nat)
    requires Valid(b)
    ensures e < |b.tiles| && b.tiles[e] == 0
    ensures forall k :: 0 <= k < |b.tiles| && k != e ==> b.tiles[k] != 0
  {
    ValidIsSquare(b);
    assert 0 in b.tiles;
    BlankFrom(b.tiles, 0)
  }

  // ---------------------------------------------------------------------------
  // Neighbours

  /** The order neighbors() tries the cells around the blank e: left, right,
      up, down. */
  function Direction(e: int, p: int, n: int): int {
    if p == e - 1 then 0 else if p == e + 1 then 1 else if p == e - n then 2 else 3
  }

  /** The candidates of `cs` that neighbors() keeps, in their order: inside
      the board, and in the blank's row or column. */
  function KeepMoves(cs: seq<int>, e: int, n: int): (ps: seq<int>)
    requires n > 0
    requires forall i, j :: 0 <= i < j < |cs| ==> Direction(e, cs[i], n) < Direction(e, cs[j], n)
    ensures forall p :: p in ps <==> p in cs && 0 <= p < n * n && (Row(p, n) == Row(e, n) || Col(p, n) == Col(e, n))
    ensures forall i, j :: 0 <= i < j < |ps| ==> Direction(e, ps[i], n) < Direction(e, ps[j], n)
    ensures |ps| <= |cs|
  {
    if |cs| == 0 then []
    else
      var rest := KeepMoves(cs[1..], e, n);
      var p := cs[0];
      if 0 <= p < n * n && (Row(p, n) == Row(e, n) || Col(p, n) == Col(e, n)) then
        assert forall i :: 0 <= i < |rest| ==> rest[i] in cs[1..];
        [p] + rest
      else
        rest
  }

  /** The cells the blank e can exchange with, in the order neighbors() builds
      the boards: every cell orthogonally adjacent to e, and nothing else. */
  function MovePositions(e: int, n: int): (ps: seq<int>)
    requires n >= 2 && 0 <= e < n * n
    ensures forall p :: p in ps <==> 0 <= p < n * n && Adjacent(e, p, n)
    ensures forall i, j :: 0 <= i < j < |ps| ==> Direction(e, ps[i], n) < Direction(e, ps[j], n)
    ensures 2 <= |ps| <= 4
  {
    var ps := KeepMoves([e - 1, e + 1, e - n, e + n], e, n);
    MovePositionsFacts(e, n, ps);
    ps
  }

  lemma MovePositionsFacts(e: int, n: int, ps: seq<int>)
    requires n >= 2 && 0 <= e < n * n
    requires ps == KeepMoves([e - 1, e + 1, e - n, e + n], e, n)
    ensures forall p :: p in ps <==> 0 <= p < n * n && Adjacent(e, p, n)
    ensures forall i, j :: 0 <= i < j < |ps| ==> Direction(e, ps[i], n) < Direction(e, ps[j], n)
    ensures 2 <= |ps| <= 4
  {
    var cs := [e - 1, e + 1, e - n, e + n];
    forall p | p in cs && 0 <= p < n * n
      ensures Adjacent(e, p, n) <==> (Row(p, n) == Row(e, n) || Col(p, n) == Col(e, n))
    {
      CandidateKept(e, p, n);
    }
    forall p | 0 <= p < n * n && Adjacent(e, p, n)
      ensures p in cs
    {
      AdjacentCandidates(e, p, n);
    }
    MovesAtLeastTwo(e, n, ps);
  }

  /** neighbors() keeps a candidate exactly when it is adjacent to the blank. */
  lemma CandidateKept(e: int, p: int, n: int)
    requires n >= 2 && 0 <= e && 0 <= p
    requires p == e - 1 || p == e + 1 || p == e - n || p == e + n
    ensures Adjacent(e, p, n) <==> (Row(p, n) == Row(e, n) || Col(p, n) == Col(e, n))
  {
    AdjacentCandidates(e, p, n);
    if p == e - 1 || p == e + 1 {
      SideCell(e, p, n);
    }
  }

  /** One horizontal and one vertical neighbour always exist. */
  lemma MovesAtLeastTwo(e: int, n: int, ps: seq<int>)
    requires n >= 2 && 0 <= e < n * n
    requires ps == KeepMoves([e - 1, e + 1, e - n, e + n], e, n)
    ensures |ps| >= 2
  {
    var h := if Col(e, n) > 0 then e - 1 else e + 1;
    var v := if Row(e, n) > 0 then e - n else e + n;
    SideCellExists(e, n);
    VerticalCellExists(e, n);
    assert h in ps && v in ps;
    assert h != v;
    var i :| 0 <= i < |ps| && ps[i] == h;
    var j :| 0 <= j < |ps| && ps[j] == v;
  }

  /** e - 1 and e + 1 lie in e's column only when the board is one wide. */
  lemma SideCell(e: int, p: int, n: int)
    requires n >= 2 && e >= 0 && p >= 0 && (p == e - 1 || p == e + 1)
    ensures Col(p, n) != Col(e, n)
  {
    if Row(p, n) == Row(e, n) {
      assert p - e == Col(p, n) - Col(e, n);
    } else {
      assert e == Row(e, n) * n + Col(e, n) && p == Row(p, n) * n + Col(p, n);
      if Col(p, n) == Col(e, n) {
        assert p - e == (Row(p, n) - Row(e, n)) * n;
        if Row(p, n) > Row(e, n) {
          MulAtLeast(Row(p, n) - Row(e, n), n);
        } else {
          MulAtLeast(Row(e, n) - Row(p, n), n);
        }
      }
    }
  }

  lemma SideCellExists(e: int, n: int)
    requires n >= 2 && 0 <= e < n * n
    ensures var h := if Col(e, n) > 0 then e - 1 else e + 1;
            0 <= h < n * n && Row(h, n) == Row(e, n)
  {
    RowBound(e, n);
    var r, c := Row(e, n), Col(e, n);
    if c > 0 {
      DivModUnique(e - 1, r, c - 1, n);
    } else {
      DivModUnique(e + 1, r, 1, n);
      MulMonotone(n - 1, r, n);
      assert (n - 1) * n == n * n - n;
    }
  }

  lemma VerticalCellExists(e: int, n: int)
    requires n >= 2 && 0 <= e < n * n
    ensures var v := if Row(e, n) > 0 then e - n else e + n;
            0 <= v < n * n && Col(v, n) == Col(e, n)
  {
    RowBound(e, n);
    if Row(e, n) > 0 {
      StepDown(e - n, n);
    } else {
      StepDown(e, n);
      MulAtLeast(n, n);
      MulAtLeast(2, n);
    }
  }

  /** Board.neighbors: one board per cell next to the blank, that cell's tile
      slid into the blank. */
  function Neighbors(b: Board): (nbs: seq<Board>)
    requires Valid(b)
    ensures 2 <= |nbs| <= 4
    ensures forall k :: 0 <= k < |nbs| ==> Valid(nbs[k]) && nbs[k].n == b.n
  {
    var e := Blank(b);
    ValidIsSquare(b);
    var ps := MovePositions(e, b.n);
    assert forall k :: 0 <= k < |ps| ==> ps[k] in ps;
    var nbs := seq(|ps|, k requires 0 <= k < |ps| => Board(Swap(b.tiles, ps[k], e), b.n));
    forall k | 0 <= k < |ps| {
      SwapValid(b, ps[k], e);
    }
    nbs
  }

  /** c is b with the tile of cell p, next to the blank, slid into the blank. */
  predicate SlidFrom(b: Board, c: Board, p: int)
    requires Valid(b)
  {
    var e := Blank(b);
    && 0 <= p < |b.tiles| && Adjacent(e, p, b.n)
    && c.n == b.n && |c.tiles| == |b.tiles|
    && c.tiles[e] == b.tiles[p] && c.tiles[p] == 0
    && forall k :: 0 <= k < |b.tiles| && k != e && k != p ==> c.tiles[k] == b.tiles[k]
  }

  /** neighbors() builds its boards in the order of MovePositions: the k-th
      board slides the tile of the k-th kept cell (left, right, up, down). */
  lemma NeighborsInOrder(b: Board)
    requires Valid(b)
    ensures |Neighbors(b)| == |MovePositions(Blank(b), b.n)|
    ensures forall k :: 0 <= k < |Neighbors(b)| ==> SlidFrom(b, Neighbors(b)[k], MovePositions(Blank(b), b.n)[k])
  {
    var e, nbs := Blank(b), Neighbors(b);
    ValidIsSquare(b);
    var ps := MovePositions(e, b.n);
    assert forall k :: 0 <= k < |ps| ==> ps[k] in ps;
  }

  /** The boards of neighbors() are exactly the one-slide moves from b, each
      given once. */
  lemma NeighborsAreSlides(b: Board)
    requires Valid(b)
    ensures forall c :: c in Neighbors(b) <==> exists p :: SlidFrom(b, c, p)
    ensures forall i, j :: 0 <= i < j < |Neighbors(b)| ==> Neighbors(b)[i] != Neighbors(b)[j]
  {
    NeighborsSlide(b);
    SlidesAreNeighbors(b);
    NeighborsDistinct(b);
  }

  lemma NeighborsSlide(b: Board)
    requires Valid(b)
    ensures forall c :: c in Neighbors(b) ==> exists p :: SlidFrom(b, c, p)
  {
    var e, nbs := Blank(b), Neighbors(b);
    ValidIsSquare(b);
    var ps := MovePositions(e, b.n);
    assert forall k :: 0 <= k < |ps| ==> ps[k] in ps;
    forall c | c in nbs
      ensures exists p :: SlidFrom(b, c, p)
    {
      var k :| 0 <= k < |nbs| && nbs[k] == c;
      assert SlidFrom(b, c, ps[k]);
    }
  }

  lemma SlidesAreNeighbors(b: Board)
    requires Valid(b)
    ensures forall c, p :: SlidFrom(b, c, p) ==> c in Neighbors(b)
  {
    var e, nbs := Blank(b), Neighbors(b);
    ValidIsSquare(b);
    var ps := MovePositions(e, b.n);
    forall c, p | SlidFrom(b, c, p)
      ensures c in nbs
    {
      assert p in ps;
      var k :| 0 <= k < |ps| && ps[k] == p;
      assert c.tiles == nbs[k].tiles;
      assert c == nbs[k];
    }
  }

  lemma NeighborsDistinct(b: Board)
    requires Valid(b)
    ensures forall i, j :: 0 <= i < j < |Neighbors(b)| ==> Neighbors(b)[i] != Neighbors(b)[j]
  {
    var e, nbs := Blank(b), Neighbors(b);
    ValidIsSquare(b);
    var ps := MovePositions(e, b.n);
    assert forall k :: 0 <= k < |ps| ==> ps[k] in ps;
    forall i, j | 0 <= i < j < |nbs|
      ensures nbs[i] != nbs[j]
    {
      assert Direction(e, ps[i], b.n) < Direction(e, ps[j], b.n);
      assert nbs[i].tiles[ps[i]] == 0 != nbs[j].tiles[ps[i]];
    }
  }

  // ---------------------------------------------------------------------------
  // Twin

  /** The two cells twin() exchanges. The scan meets two tiles before the blank
      unless the blank is in cell 0 or 1; then it restarts at the start of the
      second row. */
  function TwinCells(b: Board): (int, int)
    requires Valid(b)
  {
    if Blank(b) < 2 then (b.n, b.n + 1) else (0, 1)
  }

  /** Board.twin, in closed form: two tiles exchanged, the blank left where it is. */
  function Twin(b: Board): (r: Board)
    requires Valid(b)
    ensures Valid(r) && r.n == b.n && r != b
    ensures Blank(r) == Blank(b)
    ensures var (i, j) := TwinCells(b);
            && 0 <= i < j < |b.tiles| && b.tiles[i] != 0 && b.tiles[j] != 0
            && r.tiles[i] == b.tiles[j] && r.tiles[j] == b.tiles[i]
            && forall k :: 0 <= k < |b.tiles| && k != i && k != j ==> r.tiles[k] == b.tiles[k]
  {
    var (i, j) := TwinCells(b);
    TwinCellsInside(b);
    SwapValid(b, i, j);
    var r := Board(Swap(b.tiles, i, j), b.n);
    assert r.tiles[i] != b.tiles[i];
    assert r.tiles[Blank(b)] == 0;
    r
  }

  lemma TwinCellsInside(b: Board)
    requires Valid(b)
    ensures var (i, j) := TwinCells(b);
            0 <= i < j < |b.tiles| && i != Blank(b) && j != Blank(b)
  {
    ValidIsSquare(b);
    MulAtLeast(b.n, b.n);
    MulAtLeast(2, b.n);
  }

  /** The scan loop of Board.twin as written: a blank resets the count and jumps
      to i / n + n - 1. For a blank at cell n + 1 or later that jump does not
      move i forward, so the loop ends only because the blank can be met while
      still in cell 0 or 1. */
  method TwinScan(b: Board) returns (t1: int, t2: int)
    requires Valid(b)
    ensures (t1, t2) == TwinCells(b)
  {
    var t, n := b.tiles, b.n;
    var e := Blank(b);
    ValidIsSquare(b);
    MulAtLeast(n, n);
    MulAtLeast(2, n);
    var i, count := 0, 0;
    t1, t2 := 0, 0;
    while count < 2 && i < n * n
      invariant 0 <= i <= n + 2 <= n * n
      invariant e >= 2 ==> i <= 2 && count == i && (i >= 1 ==> t1 == 0) && (i == 2 ==> t2 == 1)
      invariant e < 2 ==>
                  (i <= e && count == i && (i == 1 ==> t1 == 0))
                  || (n <= i && count == i - n && (i >= n + 1 ==> t1 == n) && (i == n + 2 ==> t2 == n + 1))
      decreases n * n - i
    {
      if t[i] == 0 {
        count := 0;
        DivModUnique(i, 0, i, n);
        i := (i / n) + n - 1;
      } else if count < 1 {
        t1 := i;
        count := count + 1;
      } else {
        t2 := i;
        count := count + 1;
      }
      i := i + 1;
    }
  }

  /** Board.twin as written: the scan, then the swap. */
  method TwinOf(b: Board) returns (r: Board)
    requires Valid(b)
    ensures r == Twin(b)
  {
    var t1, t2 := TwinScan(b);
    r := Board(Swap(b.tiles, t1, t2), b.n);
  }
}
