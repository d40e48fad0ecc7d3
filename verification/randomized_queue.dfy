/** A randomized queue on a resizing array: items sit in the first `size`
    slots, in no particular order; the array doubles when it is full and
    halves when it falls below a quarter full. The random index that
    RandomizedQueue draws with StdRandom.uniform is a parameter here. */
module RandomizedQueues {
  import opened Wrappers

  /** `queue` is the array (its length the capacity; None is null), `size`
      the number of items in it. Slots at and past `size` may still hold stale
      references; nothing reads them. */
  datatype RQueue<T> = RQueue(queue: seq<Option<T>>, size: int)

  /** The representation invariant. */
  predicate Valid<T>(q: RQueue<T>) {
    && 1 <= |q.queue|
    && Filled(q.queue, q.size)
  }

  /** The first `size` slots are all filled. */
  predicate Filled<T>(queue: seq<Option<T>>, size: int) {
    0 <= size <= |queue| && forall i :: 0 <= i < size ==> queue[i].Some?
  }

  /** The items of the first `size` slots, in array order. */
  function Prefix<T>(queue: seq<Option<T>>, size: int): (s: seq<T>)
    requires Filled(queue, size)
    ensures |s| == size
    ensures forall i :: 0 <= i < |s| ==> queue[i] == Some(s[i])
  {
    seq(size, i requires 0 <= i < size => queue[i].value)
  }

  /** The items in array order. */
  function Items<T>(q: RQueue<T>): (s: seq<T>)
    requires Valid(q)
    ensures |s| == q.size
    ensures forall i :: 0 <= i < |s| ==> q.queue[i] == Some(s[i])
  {
    Prefix(q.queue, q.size)
  }

  /** The abstract state: the multiset of items. */
  function Contents<T>(q: RQueue<T>): (m: multiset<T>)
    requires Valid(q)
    ensures |m| == q.size
  {
    multiset(Items(q))
  }

  /** The constructor: an array of one slot and no items. */
  function New<T>(): (q: RQueue<T>)
    ensures Valid(q) && Contents(q) == multiset{} && |q.queue| == 1
  {
    RQueue([None], 0)
  }

  function IsEmpty<T>(q: RQueue<T>): (r: bool)
    requires Valid(q)
    ensures r <==> Contents(q) == multiset{}
  {
    q.size == 0
  }

  function Size<T>(q: RQueue<T>): (r: int)
    requires Valid(q)
    ensures r == |Contents(q)| && r <= |q.queue|
  {
    q.size
  }

  /** Copies the first `size` slots into a fresh array of `capacity` null
      slots: the resizing loop of enqueue, of dequeue and of the iterator's
      constructor. */
  method Resize<T>(queue: seq<Option<T>>, size: nat, capacity: nat) returns (nq: seq<Option<T>>)
    requires size <= |queue| && size <= capacity
    ensures |nq| == capacity
    ensures nq[..size] == queue[..size]
    ensures forall i :: size <= i < capacity ==> nq[i].None?
  {
    var a := new Option<T>[capacity](_ => None);
    var i := 0;
    while i < size
      invariant 0 <= i <= size
      invariant forall k :: 0 <= k < i ==> a[k] == queue[k]
      invariant forall k :: i <= k < capacity ==> a[k].None?
    {
      a[i] := queue[i];
      i := i + 1;
    }
    nq := a[..];
  }

  /** enqueue. A null item is refused. A full array is first copied into one
      of twice the length; the item then goes into the first free slot. */
  method Enqueue<T>(q: RQueue<T>, item: Option<T>) returns (r: Result<RQueue<T>, Exception>)
    requires Valid(q)
    ensures item.None? ==> r == Err(IllegalArgument)
    ensures item.Some? ==> r.Ok? && Valid(r.value) && r.value.size == q.size + 1
    ensures item.Some? ==> Items(r.value) == Items(q) + [item.value]
    ensures item.Some? ==> Contents(r.value) == Contents(q) + multiset{item.value}
    ensures item.Some? && q.size == |q.queue| ==> |r.value.queue| == 2 * |q.queue|
    ensures item.Some? && q.size < |q.queue| ==> r.value.queue[..q.size] == q.queue[..q.size]
    ensures item.Some? && q.size < |q.queue| ==> |r.value.queue| == |q.queue|
  {
    if item.None? {
      return Err(IllegalArgument);
    }
    var queue := q.queue;
    if q.size == |queue| {
      queue := Resize(queue, q.size, q.size * 2);
    }
    assert queue[..q.size] == q.queue[..q.size];
    queue := queue[q.size := item];
    var e := RQueue(queue, q.size + 1);
    assert forall i :: 0 <= i < q.size ==> queue[i] == q.queue[i] by {
      forall i | 0 <= i < q.size
        ensures queue[i] == q.queue[i]
      {
        assert queue[i] == queue[..q.size][i];
      }
    }
    assert Valid(e);
    assert Items(e) == Items(q) + [item.value];
    r := Ok(e);
  }

  /** Taking the item at n out of the first `size` slots by moving the last
      of them into its place removes exactly that one occurrence. */
  lemma SwapRemove<T>(s: seq<T>, n: nat)
    requires n < |s|
    ensures multiset(s[n := s[|s| - 1]][..|s| - 1]) == multiset(s) - multiset{s[n]}
  {
    var last := |s| - 1;
    if n == last {
      assert s == s[..last] + [s[last]];
      assert s[n := s[last]] == s;
    } else {
      assert s == s[..n] + [s[n]] + s[n + 1..last] + [s[last]];
      assert s[n := s[last]][..last] == s[..n] + [s[last]] + s[n + 1..last];
    }
  }

  /** The swap-remove step shared by dequeue and the iterator's next: the
      item at index n, and the slots with the last item moved over it. */
  function TakeAt<T>(queue: seq<Option<T>>, size: int, n: int): (r: (T, seq<Option<T>>))
    requires Filled(queue, size) && 0 <= n < size
    ensures Some(r.0) == queue[n] && |r.1| == |queue|
    ensures Filled(r.1, size - 1)
    ensures multiset(Prefix(r.1, size - 1)) == multiset(Prefix(queue, size)) - multiset{r.0}
  {
    var r := (queue[n].value, queue[n := queue[size - 1]]);
    var before := Prefix(queue, size);
    SwapRemove(before, n);
    assert Prefix(r.1, size - 1) == before[n := before[size - 1]][..size - 1];
    r
  }

  /** dequeue with the drawn index n, which RandomizedQueue draws with
      StdRandom.uniform over 0 .. size-1. An empty queue throws. The item at
      n is returned and the last item moves into its slot; when fewer than a
      quarter of the slots remain in use the array is copied into one of half
      the length. */
  method Dequeue<T>(q: RQueue<T>, n: int) returns (r: Result<(T, RQueue<T>), Exception>)
    requires Valid(q)
    requires q.size > 0 ==> 0 <= n < q.size
    ensures r.Err? <==> Contents(q) == multiset{}
    ensures r.Err? ==> r.error == NoSuchElement
    ensures r.Ok? ==> Valid(r.value.1) && r.value.1.size == q.size - 1
    ensures r.Ok? ==> r.value.0 == Items(q)[n]
    ensures r.Ok? ==> Contents(r.value.1) == Contents(q) - multiset{r.value.0}
    ensures r.Ok? && q.size - 1 < |q.queue| / 4 ==> |r.value.1.queue| == |q.queue| / 2
    ensures r.Ok? && q.size - 1 >= |q.queue| / 4 ==> |r.value.1.queue| == |q.queue|
  {
    if IsEmpty(q) {
      return Err(NoSuchElement);
    }
    var size := q.size - 1;
    var taken := TakeAt(q.queue, q.size, n);
    var tmp := taken.0;
    var queue := taken.1;
    var e := RQueue(queue, size);
    assert Valid(e);
    if size < |queue| / 4 {
      queue := Resize(queue, size, |queue| / 2);
      var shrunk := RQueue(queue, size);
      assert forall i :: 0 <= i < size ==> queue[i] == queue[..size][i];
      assert Items(shrunk) == Items(e);
      e := shrunk;
    }
    r := Ok((tmp, e));
  }

  /** sample with the drawn index n: an item of the queue, which is left as
      it was. An empty queue throws. */
  function Sample<T>(q: RQueue<T>, n: int): (r: Result<T, Exception>)
    requires Valid(q)
    requires q.size > 0 ==> 0 <= n < q.size
    ensures r.Err? <==> Contents(q) == multiset{}
    ensures r.Err? ==> r.error == NoSuchElement
    ensures r.Ok? ==> r.value in Contents(q) && r.value == Items(q)[n]
  {
    if IsEmpty(q) then Err(NoSuchElement) else Ok(q.queue[n].value)
  }

  // ---------------------------------------------------------------------------
  // The iterator

  /** RQueueIterator: its own copy of the items and how many remain. */
  datatype RQueueIterator<T> = RQueueIterator(itqueue: seq<Option<T>>, itsize: int)

  predicate IteratorValid<T>(it: RQueueIterator<T>) {
    Filled(it.itqueue, it.itsize)
  }

  /** The items the iterator has still to yield. */
  function Remaining<T>(it: RQueueIterator<T>): (m: multiset<T>)
    requires IteratorValid(it)
    ensures |m| == it.itsize
  {
    multiset(Prefix(it.itqueue, it.itsize))
  }

  /** The iterator's constructor copies the items into an array of exactly
      `size` slots; the queue itself is not touched. */
  method Iterator<T>(q: RQueue<T>) returns (it: RQueueIterator<T>)
    requires Valid(q)
    ensures IteratorValid(it) && Remaining(it) == Contents(q)
    ensures |it.itqueue| == q.size
  {
    var itqueue := Resize(q.queue, q.size, q.size);
    it := RQueueIterator(itqueue, q.size);
    assert forall i :: 0 <= i < q.size ==> itqueue[i] == itqueue[..q.size][i];
    assert Prefix(itqueue, q.size) == Items(q);
  }

  function HasNext<T>(it: RQueueIterator<T>): bool {
    it.itsize > 0
  }

  /** next with the drawn index n: a remaining item, removed from what is
      left to yield. */
  function Next<T>(it: RQueueIterator<T>, n: int): (r: Result<(T, RQueueIterator<T>), Exception>)
    requires IteratorValid(it)
    requires HasNext(it) ==> 0 <= n < it.itsize
    ensures r.Err? <==> !HasNext(it)
    ensures r.Err? ==> r.error == NoSuchElement
    ensures r.Ok? ==> IteratorValid(r.value.1) && r.value.0 in Remaining(it)
    ensures r.Ok? ==> Remaining(r.value.1) == Remaining(it) - multiset{r.value.0}
  {
    if !HasNext(it) then Err(NoSuchElement)
    else
      var taken := TakeAt(it.itqueue, it.itsize, n);
      Ok((taken.0, RQueueIterator(taken.1, it.itsize - 1)))
  }

  /** A run of draws that can drive the iterator to the end: the k-th draw
      is below the number of items left at that point. */
  predicate DrawsFor(itsize: int, draws: seq<int>) {
    |draws| == itsize && forall k :: 0 <= k < |draws| ==> 0 <= draws[k] < itsize - k
  }

  /** Calling next until hasNext fails yields every item exactly once. */
  function Drain<T>(it: RQueueIterator<T>, draws: seq<int>): (ys: seq<T>)
    requires IteratorValid(it) && DrawsFor(it.itsize, draws)
    ensures multiset(ys) == Remaining(it)
    decreases |draws|
  {
    if !HasNext(it) then []
    else
      var step := Next(it, draws[0]).value;
      DrawsForRest(it.itsize, draws);
      var ys := Drain(step.1, draws[1..]);
      assert multiset([step.0] + ys) == multiset{step.0} + multiset(ys);
      [step.0] + ys
  }

  /** After the first draw, the remaining draws fit the one item fewer. */
  lemma DrawsForRest(itsize: int, draws: seq<int>)
    requires DrawsFor(itsize, draws) && |draws| > 0
    ensures DrawsFor(itsize - 1, draws[1..])
  {
    forall k | 0 <= k < |draws[1..]|
      ensures 0 <= draws[1..][k] < itsize - 1 - k
    {
      assert draws[1..][k] == draws[k + 1];
    }
  }
}
