/**
 * drgns/src/lookahead.rs: `Lookahead`, two cloned iterators `main` and
 * `branch` over one sequence, where `peek` reads ahead on the branch and
 * `commit` or `reset` makes one catch up with the other; and the `Cursor`
 * interface with the `VecCursor` its unit test exercises.
 *
 * An iterator over a sequence is its position in it: `next` yields the item
 * there and moves on, and at the end it yields `None` and stays put.
 */
module Lookahead {
  import opened Wrappers

  /** The item at position `i`, if there is one. */
  function ItemAt<T>(items: seq<T>, i: nat): (r: Option<T>)
    ensures r.Some? <==> i < |items|
    ensures r.Some? ==> r.value == items[i]
  {
    if i < |items| then Some(items[i]) else None
  }

  /** The position after one `next` from `i`. */
  function Step<T>(items: seq<T>, i: nat): (j: nat)
    ensures j == i || j == i + 1
    ensures j == i + 1 <==> ItemAt(items, i).Some?
  {
    if i < |items| then i + 1 else i
  }

  class Lookahead<T> {
    const items: seq<T>
    var main: nat
    var branch: nat
    /** The item most recently returned by `peek` or `next`. */
    var current: Option<T>

    /** `lookahead(iterable)`: both iterators at the start, nothing read yet. */
    constructor (items: seq<T>)
      ensures this.items == items && main == 0 && branch == main && current == None
      ensures Valid()
    {
      this.items := items;
      main := 0;
      branch := 0;
      current := None;
    }

    /** The branch is never behind the main iterator, and neither passes the end. */
    ghost predicate Valid()
      reads this
    {
      main <= branch <= |items|
    }

    /** `peek`: read the next item on the branch only. */
    method Peek() returns (r: Option<T>)
      requires Valid()
      modifies this
      ensures r == ItemAt(items, old(branch)) && current == r
      ensures main == old(main) && branch == Step(items, old(branch))
      ensures Valid()
    {
      current := ItemAt(items, branch);
      branch := Step(items, branch);
      r := current;
    }

    /** `reset`: give up what was peeked; the branch returns to the main iterator. */
    method Reset()
      requires Valid()
      modifies this
      ensures branch == main && main == old(main) && current == old(current)
      ensures Valid()
    {
      branch := main;
    }

    /** `commit`: keep what was peeked; the main iterator catches up with the branch. */
    method Commit()
      requires Valid()
      modifies this
      ensures main == old(branch) && branch == old(branch) && current == old(current)
      ensures Valid()
    {
      main := branch;
    }

    /** `next`: read the next item on the main iterator and resynchronise the branch. */
    method Next() returns (r: Option<T>)
      requires Valid()
      modifies this
      ensures r == ItemAt(items, old(main)) && current == r
      ensures main == Step(items, old(main)) && branch == main
      ensures Valid()
    {
      current := ItemAt(items, main);
      main := Step(items, main);
      branch := main;
      r := current;
    }

    /**
     * Any number of `peek`s followed by `reset`: the peeks read successive
     * items from the branch, and the main iterator has not moved, so the
     * next `next` returns what it would have returned anyway.
     */
    method PeekThenReset(k: nat) returns (peeked: seq<Option<T>>)
      requires Valid()
      modifies this
      ensures main == old(main) && branch == main && Valid()
      ensures |peeked| == k
      ensures forall j :: 0 <= j < k ==> peeked[j] == ItemAt(items, old(branch) + j)
    {
      peeked := [];
      var i := 0;
      while i < k
        invariant 0 <= i <= k && |peeked| == i
        invariant Valid() && main == old(main)
        invariant branch == if old(branch) + i <= |items| then old(branch) + i else |items|
        invariant forall j :: 0 <= j < i ==> peeked[j] == ItemAt(items, old(branch) + j)
      {
        var p := Peek();
        peeked := peeked + [p];
        i := i + 1;
      }
      Reset();
    }
  }

  /** A `peek`, `reset` and then `next` return the same item. */
  method PeekResetNext<T>(l: Lookahead<T>) returns (peeked: Option<T>, next: Option<T>)
    requires l.Valid() && l.branch == l.main
    modifies l
    ensures peeked == next == ItemAt(l.items, old(l.main))
    ensures l.main == Step(l.items, old(l.main)) && l.Valid()
  {
    peeked := l.Peek();
    l.Reset();
    next := l.Next();
  }

  /** The `VecCursor` of the unit test: a `Cursor` over a vector of `i32`. */
  class VecCursor {
    const v: seq<int>
    var back: nat
    var front: nat
    var previous: Option<int>

    /** `VecCursor::new`: empty window at the start, nothing read. */
    constructor (v: seq<int>)
      ensures this.v == v && back == 0 && front == 0 && previous == None
      ensures Valid()
    {
      this.v := v;
      back := 0;
      front := 0;
      previous := None;
    }

    ghost predicate Valid()
      reads this
    {
      back <= front
    }

    /** `peek_n`: the item `i` past the front. */
    function PeekN(i: nat): (r: Option<int>)
      reads this
      ensures r.Some? <==> front + i < |v|
      ensures r.Some? ==> r.value == v[front + i]
    {
      ItemAt(v, front + i)
    }

    /** `peek_back_n`: the item `i` past the back. */
    function PeekBackN(i: nat): (r: Option<int>)
      reads this
      ensures r.Some? <==> back + i < |v|
      ensures r.Some? ==> r.value == v[back + i]
    {
      ItemAt(v, back + i)
    }

    /** `front`, the trait's default. */
    function Front(): (r: Option<int>)
      reads this
      ensures r == PeekN(0)
      ensures r.Some? ==> r.value == v[front]
    {
      PeekN(0)
    }

    /** `back`, the trait's default. */
    function Back(): (r: Option<int>)
      reads this
      ensures r == PeekBackN(0)
      ensures r.Some? ==> r.value == v[back]
    {
      PeekBackN(0)
    }

    /** `window_len`. */
    function WindowLen(): (n: nat)
      reads this
      requires back <= front
      ensures back + n == front
    {
      front - back
    }

    /** `window_is_empty`. */
    function WindowIsEmpty(): (b: bool)
      reads this
      requires back <= front
      ensures b <==> front == back
    {
      WindowLen() == 0
    }

    /** `advance`: the item at the front (if any); the front moves on regardless. */
    method Advance() returns (r: Option<int>)
      requires Valid()
      modifies this
      ensures r == ItemAt(v, old(front)) && previous == r
      ensures front == old(front) + 1 && back == old(back) && Valid()
    {
      r := ItemAt(v, front);
      front := front + 1;
      previous := r;
    }

    /**
     * `consume`: the window's items, with the back moved up to the front;
     * `None`, with nothing moved, once the back or the front is at the end.
     */
    method Consume() returns (r: Option<seq<int>>)
      requires Valid()
      modifies this
      ensures front == old(front) && previous == old(previous) && Valid()
      ensures old(back) >= |v| || old(front) >= |v| ==> r.None? && back == old(back)
      ensures old(back) < |v| && old(front) < |v| ==> r == Some(v[old(back)..old(front)]) && back == old(front)
    {
      if back >= |v| || front >= |v| {
        return None;
      }
      r := Some(v[back..front]);
      back := front;
    }

    /** `burn`, the trait's default: consume and discard. */
    method Burn()
      requires Valid()
      modifies this
      ensures front == old(front) && Valid()
      ensures back == if old(back) < |v| && old(front) < |v| then old(front) else old(back)
    {
      var _ := Consume();
    }

    /** `reset`: the front returns to the back. */
    method Reset()
      requires Valid()
      modifies this
      ensures front == old(back) && back == old(back) && previous == old(previous) && Valid()
    {
      front := back;
    }
  }

  /**
   * The unit test `cursor`: the cursor over `[1, 2, 3, 4, 5, 6]` driven
   * through the test's calls, returning what each of its assertions checks,
   * in order.
   */
  method CursorTest() returns (empty1: bool, a1: Option<int>, a2: Option<int>, prev: Option<int>,
                               b: Option<int>, consumed: Option<seq<int>>, empty2: bool,
                               a3: Option<int>, len: nat, p2: Option<int>,
                               a4: Option<int>, a5: Option<int>, a6: Option<int>,
                               pb1: Option<int>, f: Option<int>, a7: Option<int>)
    ensures empty1 && a1 == Some(1) && a2 == Some(2) && prev == Some(2) && b == Some(1)
    ensures consumed == Some([1, 2]) && empty2 && a3 == Some(3) && len == 1
    ensures p2 == Some(5) && a4 == Some(3) && a5 == Some(4) && a6 == Some(5)
    ensures pb1 == Some(4) && f == Some(6) && a7 == Some(6)
  {
    var c := new VecCursor([1, 2, 3, 4, 5, 6]);
    empty1 := c.WindowIsEmpty();
    a1 := c.Advance();
    a2 := c.Advance();
    prev := c.previous;
    b := c.Back();
    consumed := c.Consume();
    assert [1, 2, 3, 4, 5, 6][0..2] == [1, 2];
    empty2 := c.WindowIsEmpty();
    a3 := c.Advance();
    len := c.WindowLen();
    c.Reset();
    p2 := c.PeekN(2);
    a4 := c.Advance();
    a5 := c.Advance();
    a6 := c.Advance();
    pb1 := c.PeekBackN(1);
    f := c.Front();
    a7 := c.Advance();
  }
}
