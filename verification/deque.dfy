/** A double-ended queue kept as a doubly linked list of nodes. The model
    keeps the chain of nodes reached from `first` along the `next` links,
    each node's item (None standing for null); the links themselves are the
    order of that sequence. The contents of the deque are the items of the
    chain, front to back. */
module Deques {
  import opened Wrappers

  /** `nodes` is the chain first .. last; `size` is the counter field. */
  datatype Deque<T> = Deque(nodes: seq<Option<T>>, size: int)

  predicate AllItems<T>(ns: seq<Option<T>>) {
    forall i :: 0 <= i < |ns| ==> ns[i].Some?
  }

  /** The representation invariant. A fresh deque is two null sentinels
      linked to each other; a deque emptied by a removal is one null node that
      is both first and last; otherwise every node holds an item and the
      counter is the length of the chain. */
  predicate Valid<T>(d: Deque<T>) {
    || (|d.nodes| == 2 && d.nodes[0].None? && d.nodes[1].None? && d.size == 0)
    || (|d.nodes| == 1 && d.nodes[0].None? && d.size == 0)
    || (|d.nodes| >= 1 && AllItems(d.nodes) && d.size == |d.nodes|)
  }

  /** The abstract state: the items front to back. */
  ghost function Contents<T>(d: Deque<T>): (s: seq<T>)
    requires Valid(d)
    ensures |s| == d.size
    ensures d.size > 0 ==> |d.nodes| == d.size
    ensures forall i :: 0 <= i < |s| ==> d.nodes[i] == Some(s[i])
  {
    if d.size == 0 then []
    else seq(|d.nodes|, i requires 0 <= i < |d.nodes| => d.nodes[i].value)
  }

  /** The constructor: two null sentinels, first linked to last. */
  function New<T>(): (d: Deque<T>)
    ensures Valid(d) && Contents(d) == [] && d.size == 0
    ensures IsEmpty(d)
  {
    Deque([None, None], 0)
  }

  /** isEmpty looks at the items of the end nodes, not at the counter. */
  function IsEmpty<T>(d: Deque<T>): (r: bool)
    requires Valid(d)
    ensures r <==> d.size == 0
    ensures r <==> Contents(d) == []
  {
    d.nodes[0].None? && d.nodes[|d.nodes| - 1].None?
  }

  function Size<T>(d: Deque<T>): (r: int)
    requires Valid(d)
    ensures r == |Contents(d)|
  {
    d.size
  }

  /** Replaces the item of the first node; on a chain with no node it makes one. */
  function SetFirst<T>(ns: seq<Option<T>>, item: Option<T>): seq<Option<T>> {
    if |ns| == 0 then [item] else ns[0 := item]
  }

  /** Replaces the item of the last node; on a chain with no node it makes one. */
  function SetLast<T>(ns: seq<Option<T>>, item: Option<T>): seq<Option<T>> {
    if |ns| == 0 then [item] else ns[|ns| - 1 := item]
  }

  /** On a valid deque that is not empty, both end nodes hold items: the
      second branch of addFirst and of addLast can never be taken. */
  lemma EndsHoldItems<T>(d: Deque<T>)
    requires Valid(d) && !IsEmpty(d)
    ensures d.nodes[0].Some? && d.nodes[|d.nodes| - 1].Some?
  {
  }

  /** addFirst. A null item is refused and the deque is left as it was. On an
      empty deque the first node takes the item and becomes the last node
      too; otherwise a new node is linked in front. */
  function AddFirst<T>(d: Deque<T>, item: Option<T>): (r: Result<Deque<T>, Exception>)
    requires Valid(d)
    ensures item.None? ==> r == Err(IllegalArgument)
    ensures item.Some? ==> r.Ok? && Valid(r.value)
    ensures item.Some? ==> Contents(r.value) == [item.value] + Contents(d)
    ensures item.Some? ==> r.value.size == d.size + 1
  {
    if item.None? then Err(IllegalArgument)
    else if IsEmpty(d) then Ok(Deque([item], d.size + 1))
    else if d.nodes[0].None? then
      assert false;
      Ok(Deque(SetFirst(d.nodes, item), d.size + 1))
    else Ok(Deque([item] + d.nodes, d.size + 1))
  }

  /** addLast: as addFirst, at the other end. On an empty deque it too fills
      the first node and makes it the last one. */
  function AddLast<T>(d: Deque<T>, item: Option<T>): (r: Result<Deque<T>, Exception>)
    requires Valid(d)
    ensures item.None? ==> r == Err(IllegalArgument)
    ensures item.Some? ==> r.Ok? && Valid(r.value)
    ensures item.Some? ==> Contents(r.value) == Contents(d) + [item.value]
    ensures item.Some? ==> r.value.size == d.size + 1
  {
    if item.None? then Err(IllegalArgument)
    else if IsEmpty(d) then Ok(Deque([item], d.size + 1))
    else if d.nodes[|d.nodes| - 1].None? then
      assert false;
      Ok(Deque(SetLast(d.nodes, item), d.size + 1))
    else Ok(Deque(d.nodes + [item], d.size + 1))
  }

  /** removeFirst. On an empty deque it throws. A lone node (no `next`) has
      its item cleared and stays; otherwise `first` moves to the next node. */
  function RemoveFirst<T>(d: Deque<T>): (r: Result<(T, Deque<T>), Exception>)
    requires Valid(d)
    ensures r.Err? <==> Contents(d) == []
    ensures r.Err? ==> r.error == NoSuchElement
    ensures r.Ok? ==> Valid(r.value.1) && r.value.1.size == d.size - 1
    ensures r.Ok? ==> r.value.0 == Contents(d)[0] && Contents(r.value.1) == Contents(d)[1..]
  {
    if IsEmpty(d) then Err(NoSuchElement)
    else
      var toReturn := d.nodes[0].value;
      if |d.nodes| == 1 then Ok((toReturn, Deque([None], d.size - 1)))
      else Ok((toReturn, Deque(d.nodes[1..], d.size - 1)))
  }

  /** removeLast. On an empty deque it throws. When the last node has a
      `previous` node, `last` moves back to it; otherwise the lone node has
      its item cleared. */
  function RemoveLast<T>(d: Deque<T>): (r: Result<(T, Deque<T>), Exception>)
    requires Valid(d)
    ensures r.Err? <==> Contents(d) == []
    ensures r.Err? ==> r.error == NoSuchElement
    ensures r.Ok? ==> Valid(r.value.1) && r.value.1.size == d.size - 1
    ensures r.Ok? ==> var s := Contents(d);
                      r.value.0 == s[|s| - 1] && Contents(r.value.1) == s[..|s| - 1]
  {
    if IsEmpty(d) then Err(NoSuchElement)
    else
      var toReturn := d.nodes[|d.nodes| - 1].value;
      if |d.nodes| > 1 then Ok((toReturn, Deque(d.nodes[..|d.nodes| - 1], d.size - 1)))
      else Ok((toReturn, Deque([None], d.size - 1)))
  }

  // ---------------------------------------------------------------------------
  // The iterator

  /** DequeIterator: the chain it walks and its current node, an index into
      the chain (|nodes| standing for null). The chain is the one the deque
      had when the iterator was made: the Java iterator follows the live
      nodes instead, so changes to the deque during an iteration are not
      modelled. The iterator only reads the chain, so the deque it came from
      is unchanged by construction. */
  datatype DequeIterator<T> = DequeIterator(nodes: seq<Option<T>>, current: nat)

  function Iterator<T>(d: Deque<T>): DequeIterator<T> {
    DequeIterator(d.nodes, 0)
  }

  function HasNext<T>(it: DequeIterator<T>): bool {
    it.current < |it.nodes| && it.nodes[it.current].Some?
  }

  /** next: the current item, and the iterator moved along `next`. */
  function Next<T>(it: DequeIterator<T>): (r: Result<(T, DequeIterator<T>), Exception>)
    ensures r.Err? <==> !HasNext(it)
    ensures r.Err? ==> r.error == NoSuchElement
    ensures r.Ok? ==> Some(r.value.0) == it.nodes[it.current]
    ensures r.Ok? ==> r.value.1.nodes == it.nodes && r.value.1.current == it.current + 1
  {
    if !HasNext(it) then Err(NoSuchElement)
    else Ok((it.nodes[it.current].value, DequeIterator(it.nodes, it.current + 1)))
  }

  /** Everything the iterator still yields, calling next while hasNext holds. */
  function Yields<T>(it: DequeIterator<T>): seq<T>
    decreases |it.nodes| - it.current
  {
    match Next(it)
    case Err(_) => []
    case Ok((x, rest)) => [x] + Yields(rest)
  }

  lemma {:induction false} YieldsSuffix<T>(d: Deque<T>, i: nat)
    requires Valid(d) && i <= d.size
    ensures Yields(DequeIterator(d.nodes, i)) == Contents(d)[i..]
    decreases d.size - i
  {
    var it := DequeIterator(d.nodes, i);
    if i == d.size {
      assert !HasNext(it);
    } else {
      assert HasNext(it);
      YieldsSuffix(d, i + 1);
      assert Contents(d)[i..] == [Contents(d)[i]] + Contents(d)[i + 1..];
    }
  }

  /** The iterator yields the contents, front to back. */
  lemma IteratorYieldsContents<T>(d: Deque<T>)
    requires Valid(d)
    ensures Yields(Iterator(d)) == Contents(d)
  {
    YieldsSuffix(d, 0);
  }

  // ---------------------------------------------------------------------------
  // Sequences of operations

  datatype Op<T> = PushFront(item: Option<T>) | PushBack(item: Option<T>) | PopFront | PopBack

  /** One call; a call that throws leaves the deque as it was. */
  function Apply<T>(d: Deque<T>, op: Op<T>): (r: Deque<T>)
    requires Valid(d)
    ensures Valid(r)
  {
    match op
    case PushFront(x) => (match AddFirst(d, x) case Ok(e) => e case Err(_) => d)
    case PushBack(x) => (match AddLast(d, x) case Ok(e) => e case Err(_) => d)
    case PopFront => (match RemoveFirst(d) case Ok((_, e)) => e case Err(_) => d)
    case PopBack => (match RemoveLast(d) case Ok((_, e)) => e case Err(_) => d)
  }

  function Run<T>(d: Deque<T>, ops: seq<Op<T>>): (r: Deque<T>)
    requires Valid(d)
    ensures Valid(r)
    decreases |ops|
  {
    if |ops| == 0 then d else Run(Apply(d, ops[0]), ops[1..])
  }

  /** The same calls on a plain sequence: the reference behaviour. */
  function SeqApply<T>(s: seq<T>, op: Op<T>): seq<T> {
    match op
    case PushFront(x) => if x.Some? then [x.value] + s else s
    case PushBack(x) => if x.Some? then s + [x.value] else s
    case PopFront => if |s| == 0 then s else s[1..]
    case PopBack => if |s| == 0 then s else s[..|s| - 1]
  }

  function SeqRun<T>(s: seq<T>, ops: seq<Op<T>>): seq<T>
    decreases |ops|
  {
    if |ops| == 0 then s else SeqRun(SeqApply(s, ops[0]), ops[1..])
  }

  /** After any sequence of calls the deque holds what the reference
      sequence holds, and isEmpty agrees with size() == 0. */
  lemma {:induction false} RunMatchesSeq<T>(d: Deque<T>, ops: seq<Op<T>>)
    requires Valid(d)
    ensures Contents(Run(d, ops)) == SeqRun(Contents(d), ops)
    ensures IsEmpty(Run(d, ops)) <==> Size(Run(d, ops)) == 0
    decreases |ops|
  {
    if |ops| != 0 {
      var e := Apply(d, ops[0]);
      assert Contents(e) == SeqApply(Contents(d), ops[0]);
      RunMatchesSeq(e, ops[1..]);
    }
  }

  /** The unit test in Deque.main: addFirst(1) then removeLast() returns 1
      and leaves the deque empty. */
  lemma AddFirstThenRemoveLast()
    ensures var d := AddFirst(New<int>(), Some(1));
            d.Ok? && RemoveLast(d.value).Ok? &&
            RemoveLast(d.value).value.0 == 1 && IsEmpty(RemoveLast(d.value).value.1)
  {
  }
}
