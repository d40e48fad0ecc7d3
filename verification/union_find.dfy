/** The union-find structure Percolation relies on, by its contract: a
    partition of 0 .. count-1 where find names each element's component, so
    two elements are connected exactly when find gives both the same name,
    and union merges the two components of its arguments. The partition is
    kept as one component label per element. */
module UnionFind {

  datatype UF = UF(id: seq<int>)

  function Count(u: UF): nat {
    |u.id|
  }

  /** The constructor: every element alone in its own component. */
  function New(count: nat): (u: UF)
    ensures Count(u) == count
    ensures forall x, y :: 0 <= x < count && 0 <= y < count ==> (Connected(u, x, y) <==> x == y)
  {
    UF(seq(count, i => i))
  }

  /** The name of x's component. */
  function Find(u: UF, x: int): int
    requires 0 <= x < Count(u)
  {
    u.id[x]
  }

  predicate Connected(u: UF, x: int, y: int)
    requires 0 <= x < Count(u) && 0 <= y < Count(u)
  {
    Find(u, x) == Find(u, y)
  }

  /** union(p, q): the components of p and q become one; no other pair of
      elements changes. */
  function Union(u: UF, p: int, q: int): (r: UF)
    requires 0 <= p < Count(u) && 0 <= q < Count(u)
    ensures Count(r) == Count(u)
    ensures Connected(r, p, q)
    ensures forall x, y :: 0 <= x < Count(u) && 0 <= y < Count(u) ==>
              (Connected(r, x, y) <==>
                 || Connected(u, x, y)
                 || (Connected(u, x, p) && Connected(u, y, q))
                 || (Connected(u, x, q) && Connected(u, y, p)))
  {
    var a, b := u.id[p], u.id[q];
    UF(seq(|u.id|, i requires 0 <= i < |u.id| => if u.id[i] == a then b else u.id[i]))
  }
}
