# Algorithms coursework cores, modelled in Dafny

This project models four small sequential programs from a Java algorithms
course and proves what their code promises:

- **8-puzzle** (`board.dfy`, `solver.dfy`). `Board` is an immutable n×n tile
  grid, flattened row-major, with 0 for the blank. It offers the Hamming and
  Manhattan heuristics, the goal test, equality, neighbour generation and
  `twin`. `Solver` runs two A* searches in lockstep, one from the initial
  board and one from its twin, over predecessor chains of search nodes.
- **Deque** (`deque.dfy`). A doubly linked list with sentinel quirks. Its
  node chain is kept as a sequence of nullable items, and its abstract state
  is the sequence of items front to back.
- **RandomizedQueue** (`randomized_queue.dfy`). A resizing array that doubles
  when full and halves below a quarter full. Its abstract state is the
  multiset of its items.
- **Percolation** (`percolation.dfy`, `site_graph.dfy`, `union_find.dfy`). An
  n×n grid of sites with a virtual top and bottom and two union-find
  structures. `grid` has both virtual nodes and answers `percolates`. `full`
  has only the top and answers `isFull`.

The shared files are:

- `wrappers.dfy`: `Option`, `Result` and the two Java exceptions.
- `grid.dfy`: row/column arithmetic on flat indices.

Every thrown exception is an `Err` result and every Java `null` is `None`.
The draws of `StdRandom.uniform` are parameters. The algs4 `MinPQ`,
`Stack` and `WeightedQuickUnionUF` appear only through their contracts.

The Percolation invariant (`Percolations.Valid`) links the union-find answers
to the grid. Two nodes are joined in a structure exactly when the structure's
graph has a walk between them (`Percolations.ConnectedIffReachable`). That
graph is open sites, orthogonal adjacency and the virtual nodes. `SiteGraph`
then turns walks through virtual nodes into plain site paths, and so
`isFull` and `percolates` get their meaning.

**What `twin` actually exchanges.** It is natural to read `twin` as swapping
cells n and n+1 whenever the blank is in row 0. The code
(`8Puzzle/Board.java:152-171`) does that only when the blank is in cell 0
or cell 1. For a blank elsewhere in row 0 (n ≥ 3), the scan has already met
two tiles and swaps cells 0 and 1. The model follows the code:
`Boards.TwinCells` is the closed form, and `Boards.TwinScan` runs the loop
literally, including the jump `i = (i / n) + n - 1`, and proves it reaches
that closed form.

## Model

| member | source | states |
|---|---|---|
| Boards.FromRows | 8Puzzle/Board.java:13-22 | the constructor copies the rows row-major: cell r*n+c holds tiles[r][c], and the dimension is the number of rows |
| Boards.FlattenCells | 8Puzzle/Board.java:16-21 | the nested copy loop places row r, column c of equal-width rows at flat index r*w+c |
| Boards.IsGoal | 8Puzzle/Board.java:81-90 | true exactly when cell k holds k+1 for every cell but the last, and the last cell holds 0 |
| Boards.GoalIsUnique | 8Puzzle/Board.java:81-90 | isGoal holds exactly for the one board whose tiles are the goal sequence of its dimension |
| Boards.HammingBounds | 8Puzzle/Board.java:47-55 | on a legal board, hamming is at most n*n-1 and is 0 exactly on the goal board |
| Boards.InPlaceIsGoal | 8Puzzle/Board.java:47-55 | on a legal board, no non-blank tile is out of place exactly when the board is the goal |
| Boards.ManhattanBounds | 8Puzzle/Board.java:58-78 | manhattan is at least hamming, and 0 exactly on the goal board |
| Boards.Equals | 8Puzzle/Board.java:94-113 | true exactly when the other board is present, has the same dimension and the same tiles; so it is reflexive and symmetric, and null gives false |
| Boards.Swap | 8Puzzle/Board.java:143-149 | the copy exchanges cells i and j, every other cell is unchanged, and the tiles are a permutation of the receiver's |
| Boards.SwapValid | 8Puzzle/Board.java:143-149 | swapping two cells of a legal board gives a legal board |
| Boards.Blank | 8Puzzle/Board.java:117-120 | the scan stops at the one cell holding 0 |
| Boards.MovePositions | 8Puzzle/Board.java:122-138 | the kept candidates are exactly the in-range cells orthogonally adjacent to the blank, with no wrap across a row end; there are 2 to 4 of them, in the order left, right, up, down |
| Boards.Neighbors | 8Puzzle/Board.java:116-141 | neighbors gives 2 to 4 legal boards of the same dimension |
| Boards.NeighborsInOrder | 8Puzzle/Board.java:122-141 | the k-th board of neighbors slides the tile of the k-th kept cell into the blank, so the boards come in the order left, right, up, down, one per kept cell |
| Boards.NeighborsAreSlides | 8Puzzle/Board.java:116-141 | a board is among the neighbours exactly when it is the receiver with one tile next to the blank slid into it; no board is given twice |
| Boards.TwinCellsInside | 8Puzzle/Board.java:152-171 | the two cells twin exchanges are distinct, inside the board and both hold tiles |
| Boards.TwinScan | 8Puzzle/Board.java:153-168 | the scan loop, with its `(i / n) + n - 1` jump, ends with cells n and n+1 when the blank is in cell 0 or 1, and with cells 0 and 1 otherwise |
| Boards.Twin | 8Puzzle/Board.java:152-171 | twin is a legal board that differs from the receiver, keeps the blank in place and exchanges exactly the two tiles named above |
| Boards.TwinOf | 8Puzzle/Board.java:152-171 | the loop-based twin equals the closed-form Twin |
| Solvers.CompareTo | 8Puzzle/Solver.java:125-127 | nodes compare by priority alone: the sign of the result is the sign of the priority difference |
| Solvers.DelMin | 8Puzzle/Solver.java:56 | delMin takes a node of least priority out of the queue and leaves every other node in it |
| Solvers.ChildrenOf | 8Puzzle/Solver.java:24-29 | each inserted node has the parent as predecessor, one more move, a neighbouring board that is not the grandparent's, and priority moves plus manhattan |
| Solvers.ChildrenOfCovers | 8Puzzle/Solver.java:24-29 | every neighbour other than the grandparent's board gets a node |
| Solvers.ChildrenOfDistinct | 8Puzzle/Solver.java:24-29 | over distinct neighbour boards, no board gets two nodes |
| Solvers.ChildrenOfCount | 8Puzzle/Solver.java:24-29 | over distinct neighbour boards, one node is made per board: as many nodes as boards when none is the grandparent's, one fewer when one is |
| Solvers.ChildrenUnique | 8Puzzle/Solver.java:24-29 | the nodes addChildren makes for a parent are pairwise different, as the neighbours of a board are |
| Solvers.AddChildren | 8Puzzle/Solver.java:24-29 | addChildren keeps every node already in the queue with its multiplicity, adds exactly one copy of each of the parent's children and nothing else, so the queue grows by the number of children, at least one |
| Solvers.ChildrenNonEmpty | 8Puzzle/Solver.java:24-29 | at most one neighbour is excluded, so a node always has a child |
| Solvers.ChildrenChained | 8Puzzle/Solver.java:24-29 | the children of a node on a chain from the root are on that chain too: moves go up by one per step and each board neighbours its predecessor's |
| Solvers.Expand | 8Puzzle/Solver.java:56-60 | one round of the loop takes off a least node, which is on a chain from the root, and leaves a non-empty queue of such nodes |
| Solvers.ExpandMoves | 8Puzzle/Solver.java:56-60 | the round removes that least node, keeps every other node, and adds exactly its children: what the new queue holds beyond the old one less that node is the multiset of its children, so the queue grows by their number less one |
| Solvers.Search | 8Puzzle/Solver.java:55-65 | the loop stops as soon as either current node is a goal, the original side winning a tie, and goes on only while neither is; the side reported holds a goal node on a chain from its own root |
| Solvers.Solve | 8Puzzle/Solver.java:11-22 | a null board throws IllegalArgumentException; otherwise a solved node is a goal on a chain from the initial board, and an unsolvable verdict means the twin side reached a goal |
| Solvers.Run | 8Puzzle/Solver.java:43-61 | the first round on each side and then the loop: a goal reported on the original side is on a chain from the initial board, one reported on the twin side is on a chain from the twin |
| Solvers.Conclude | 8Puzzle/Solver.java:63-65 | a goal found on the original side becomes solved, one found on the twin side leaves the board unsolvable, and solved is set only from a goal node of the original side |
| Solvers.PathFacts | 8Puzzle/Solver.java:18-19 | a chain of moves k holds k+1 boards from the root to the node, each a one-slide move from the one before |
| Solvers.UnwindIsPath | 8Puzzle/Solver.java:73-82 | the stack solution builds, read from its top, lists the boards of the chain from the root to the solved node |
| Solvers.SolutionFacts | 8Puzzle/Solver.java:32-83 | isSolvable holds exactly when solution is non-null; unsolvable gives moves -1; otherwise solution has moves+1 boards, starts at the initial board, ends at a goal and moves one slide per step |
| Solvers.SolveGoalBoard | 8Puzzle/Solver.java:50-65 | for a goal board the solver reports solvable, 0 moves and the solution [initial] |
| Solvers.SolveTwinGoalBoard | 8Puzzle/Solver.java:50-65 | a board that is not the goal but whose twin is gets reported unsolvable after the first round, whatever the fuel |
| Deques.New | queues/Deque.java:10-15 | a new deque is empty, has size 0 and no items |
| Deques.IsEmpty | queues/Deque.java:18-20 | isEmpty, computed from null end items, holds exactly when size is 0 and exactly when there are no items |
| Deques.Size | queues/Deque.java:23-25 | size is the number of items |
| Deques.EndsHoldItems | queues/Deque.java:36-37 | on a non-empty deque both end nodes hold items, so the second branches of addFirst and addLast (lines 36-37, 56-57) are never taken |
| Deques.AddFirst | queues/Deque.java:28-45 | null throws IllegalArgumentException; otherwise the items become [x] + s and size grows by one |
| Deques.AddLast | queues/Deque.java:48-65 | null throws IllegalArgumentException; otherwise the items become s + [x] and size grows by one |
| Deques.RemoveFirst | queues/Deque.java:68-80 | an empty deque throws NoSuchElementException; otherwise it returns s[0], leaves s[1..] and size drops by one |
| Deques.RemoveLast | queues/Deque.java:83-95 | an empty deque throws NoSuchElementException; otherwise it returns the last item, leaves the rest in order and size drops by one |
| Deques.Next | queues/Deque.java:119-129 | next throws NoSuchElementException exactly when hasNext is false; otherwise it returns the current item and moves one node on |
| Deques.YieldsSuffix | queues/Deque.java:108-129 | an iterator standing at node i yields the items from position i to the end |
| Deques.IteratorYieldsContents | queues/Deque.java:108-135 | the iterator yields exactly the items, front to back |
| Deques.RunMatchesSeq | queues/Deque.java:18-95 | after any sequence of operations, the items are those of the same operations on a plain sequence, and isEmpty agrees with size == 0 |
| Deques.AddFirstThenRemoveLast | queues/Deque.java:157-169 | addFirst(1) then removeLast() returns 1 and leaves the deque empty |
| RandomizedQueues.New | queues/RandomizedQueue.java:12-15 | a new queue has an array of one slot and no items |
| RandomizedQueues.IsEmpty | queues/RandomizedQueue.java:18-20 | isEmpty holds exactly when the multiset of items is empty |
| RandomizedQueues.Size | queues/RandomizedQueue.java:23-25 | size is the number of items, counted with multiplicity, and never exceeds the array's length |
| RandomizedQueues.Resize | queues/RandomizedQueue.java:32-36 | the copy loop yields an array of the new length whose first size slots equal the old ones, the rest null |
| RandomizedQueues.Enqueue | queues/RandomizedQueue.java:28-39 | null throws IllegalArgumentException; otherwise the item is added once, size grows by one, and a full array doubles while keeping its first size slots |
| RandomizedQueues.SwapRemove | queues/RandomizedQueue.java:46-47 | moving the last item over position n removes exactly one occurrence of the item at n |
| RandomizedQueues.TakeAt | queues/RandomizedQueue.java:46-47 | the slot update returns the item at n, and the remaining items are the old multiset minus that item |
| RandomizedQueues.Dequeue | queues/RandomizedQueue.java:42-57 | an empty queue throws NoSuchElementException; otherwise it returns the item at the drawn index, removes one occurrence of it, and halves the array exactly when fewer than a quarter of the slots stay in use |
| RandomizedQueues.Sample | queues/RandomizedQueue.java:60-65 | an empty queue throws NoSuchElementException; otherwise it returns the item at the drawn index, which is in the queue |
| RandomizedQueues.Iterator | queues/RandomizedQueue.java:71-77 | the iterator's copy holds exactly the queue's items, in an array of exactly size slots |
| RandomizedQueues.Next | queues/RandomizedQueue.java:83-90 | next throws exactly when nothing remains; otherwise it yields a remaining item and removes one occurrence of it from what remains |
| RandomizedQueues.Drain | queues/RandomizedQueue.java:67-96 | calling next until hasNext fails yields every item of the queue exactly once |
| UnionFind.New | percolation/Percolation.java:18-19 | a fresh union-find structure has the given number of elements, each in its own component |
| UnionFind.Union | percolation/Percolation.java:64-67 | union joins the components of its two arguments and changes no other pair |
| SiteGraph.FullIff | percolation/Percolation.java:105-109 | without a bottom node, the virtual top reaches a site exactly when an open path of orthogonally adjacent sites links it to an open top-row site |
| SiteGraph.PercolatesIff | percolation/Percolation.java:117-119 | with both virtual nodes, top reaches bottom exactly when an open path links the top row to the bottom row |
| SiteGraph.ClosedIsolated | percolation/Percolation.java:63-93 | a blocked site has no edges, so it reaches no node but itself |
| Percolations.FlatIndex | percolation/Percolation.java:40-53 | coordinates outside 1..n throw IllegalArgumentException; others map to a 0-based index below n*n in row row-1 and column col-1 |
| Percolations.FlatIndexOnto | percolation/Percolation.java:40-43 | every index below n*n is the flat index of some valid site |
| Percolations.VirtualNodes | percolation/Percolation.java:24-25 | the virtual top is flatIndex(n, n)+1 = n*n and the virtual bottom is n*n+1 |
| Percolations.New | percolation/Percolation.java:14-29 | n <= 0 throws IllegalArgumentException; otherwise every site is blocked, the open count is 0 and the invariant holds |
| Percolations.IsOpen | percolation/Percolation.java:99-102 | coordinates outside 1..n throw; otherwise it gives the site's open flag |
| Percolations.IsFull | percolation/Percolation.java:105-109 | coordinates outside 1..n throw; a full site is open, and a site is full exactly when an open path links it to an open top-row site |
| Percolations.FullMeansFed | percolation/Percolation.java:105-109 | open and joined to the top in `full` is the same as fed from the top row through open sites |
| Percolations.NumberOfOpenSites | percolation/Percolation.java:112-114 | the open count equals the number of open sites |
| Percolations.Percolates | percolation/Percolation.java:117-119 | the system percolates exactly when an open path links the top row to the bottom row |
| Percolations.Open | percolation/Percolation.java:56-96 | coordinates outside 1..n throw; an open site leaves the state as it was; a blocked site becomes open and the count grows by one |
| Percolations.OpenKeepsValid | percolation/Percolation.java:56-96 | after open, both structures again join exactly the nodes their graphs connect, and the count matches the open sites |
| Percolations.LinkedSound | percolation/Percolation.java:63-93 | every union open makes joins the two ends of an edge of the grid with the new site open |
| Percolations.LinkedJoined | percolation/Percolation.java:63-93 | after its unions, open has joined the site to the top when it is in row 1, to the bottom in `grid` when it is in row n, and to each open neighbour, and has separated nothing |
| Percolations.OpenIdempotent | percolation/Percolation.java:56-58 | after open the site is open, and a second open of it changes nothing |
| Percolations.OpenOnlyOpens | percolation/Percolation.java:56-61 | open blocks no site and changes no other site |
| Percolations.OpenGrows | percolation/Percolation.java:56-61 | the open sites after open include those before |
| Percolations.TopRowOpenIsFull | percolation/Percolation.java:63-67 | an open site of the top row is full |
| Percolations.OpenKeepsFull | percolation/Percolation.java:56-109 | a full site stays full when another site opens |
| Percolations.OpenKeepsPercolating | percolation/Percolation.java:56-119 | once the system percolates it still does after any further open |
| Percolations.SingleSitePercolates | percolation/Percolation.java:63-72 | on a 1-by-1 grid, opening the only site makes the system percolate |

## Left out

- Percolation statistics: the floating-point mean, deviation and confidence interval, and the random trials, are not modelled.
- I/O is not modelled: every `main` method, the file reading, `Board.toString` and `Deque.printList`.
- The algs4 `MinPQ`, `Stack` and `WeightedQuickUnionUF` are not part of this model. The priority queue is a multiset with "remove some node of least priority", so ties are broken arbitrarily. The stack in `solution` is a sequence. Union-find is a partition with find and union contracts, kept as one label per element.
- `StdRandom.uniform` is replaced by an index argument below the current size. No claim about the distribution is made.
- Solvers.Solve: the search loop gets `fuel` rounds and reports `FuelExhausted` when they run out. The termination of the loop, A* optimality of `moves` and the theorem that exactly one of a board and its twin is solvable are not proved.
- Solvers.DelMin: the least node is chosen by a ghost choice, not by the heap order of `MinPQ`, so the model fixes no particular tie-break.
- Boards.Equals: only another board or null can be passed. Comparison with objects of other classes is left out, as it always answers false.
- Java `int` overflow is not modelled: in `n * n`, in `manhattan` sums, in `compareTo`'s subtraction, or in doubling the queue. All integers are unbounded.
- Deques: the node chain is a sequence of nullable items with implicit links, so node identity, the `previous`/`next` links and garbage are not modelled. The iterator's `remove` (always unsupported) is also left out. The iterator is a copy of the chain taken when it is created; the Java iterator follows the live nodes, so changes to the deque during an iteration are not modelled.
- RandomizedQueues: slots at and past `size` keep stale references, as in the Java array (`dequeue` leaves the moved item in slot `size-1` too); no contract says anything about them. Modification of a queue while one of its iterators is in use is not modelled either, since the iterator works on its own copy.
- Boards.FromRows: the constructor assumes square input, as the Java constructor does without checking it. Boards are legal positions, so a permutation of 0..n*n-1 with n >= 2 is required by every operation that the solver uses.
