/**
 * The later `source/` snapshot (drgns/src/source/arena.rs and view.rs): a
 * `SourceArena` of characters with an id table, `SourceView`s that hold a
 * weak reference to it and a span over it, and a `Reader` that walks either
 * the whole arena or one view of it. A weak reference that no longer
 * upgrades is the arena's `alive` flag being false; every `unwrap` of such
 * an upgrade is a precondition.
 */
module Source {
  import opened Wrappers
  import Utf8
  import Arena

  /** A `SourceSpan` `(offset, len)`: the same shape as the first snapshot's span. */
  type Span = Arena.Span

  class SourceArena {
    var data: seq<char>
    /** The `BiMap` from source names to ids. */
    var ids: map<string, nat>
    /** Whether a strong reference is still held, so that weak references upgrade. */
    var alive: bool

    /** `SourceArena::new`: empty, with `"REPL"` registered as id 0. */
    constructor ()
      ensures data == [] && ids == map["REPL" := 0] && alive
    {
      data := [];
      ids := map["REPL" := 0];
      alive := true;
    }

    /**
     * `intern`: extend the data with the characters of `src` and return a
     * view over exactly them (sized by characters, not by bytes).
     */
    method Intern(src: string) returns (v: SourceView)
      modifies this
      ensures data == old(data) + src && ids == old(ids) && alive == old(alive)
      ensures fresh(v) && v.arena == this && v.span == Arena.Span(|old(data)|, |src|)
      ensures alive ==> v.IntoString() == src
    {
      var start := |data|;
      data := data + src;
      v := new SourceView.Over(this, Arena.Span(start, |src|));
      Arena.TextInBounds(v.span, data);
      assert data[start..v.span.End()] == src;
    }

    /** `get`: the character at `idx`, if the arena is that long. */
    function Get(idx: nat): (r: Option<char>)
      reads this
      ensures r.Some? <==> idx < |data|
      ensures r.Some? ==> r.value == data[idx]
    {
      if idx < |data| then Some(data[idx]) else None
    }

    /** The last strong reference going away: weak references stop upgrading. */
    method Drop()
      modifies this
      ensures data == old(data) && ids == old(ids) && !alive
    {
      alive := false;
    }
  }

  class SourceView {
    const arena: SourceArena
    var span: Span

    /** The struct literal `SourceView { arena, span }`. */
    constructor Over(arena: SourceArena, span: Span)
      ensures this.arena == arena && this.span == span
    {
      this.arena := arena;
      this.span := span;
    }

    /** `from_arena`: a view over the whole arena. */
    constructor FromArena(arena: SourceArena)
      ensures this.arena == arena && span == Arena.Span(0, |arena.data|)
    {
      this.arena := arena;
      span := Arena.Span(0, |arena.data|);
    }

    /** `grow`: one more character at the end. */
    method Grow()
      modifies this
      ensures span.start == old(span.start) && span.length == old(span.length) + 1
      ensures span.End() == old(span.End()) + 1
    {
      span := Arena.Span(span.start, span.length + 1);
    }

    /** `pull_tail`: move the start up to the end, leaving an empty view. */
    method PullTail()
      modifies this
      ensures span == Arena.Span(old(span.End()), 0)
    {
      span := Arena.Span(span.End(), 0);
    }

    /** `into_string`: the arena characters skipped to `start` and taken up to `len`. */
    function IntoString(): (s: string)
      reads this, arena
      requires arena.alive
      ensures span.End() <= |arena.data| ==> s == arena.data[span.start..span.End()]
    {
      var t := span.Text(arena.data);
      assert span.End() <= |arena.data| ==> t == arena.data[span.start..span.End()];
      t
    }

    /** The precondition `get` asserts: `i < len`. */
    predicate GetPre(i: nat)
      reads this
      ensures GetPre(i) ==> span.length >= 1 && span.start + i < span.End()
    {
      i < span.length
    }

    /** The precondition `get_back` asserts, with its `usize` subtraction not underflowing. */
    predicate GetBackPre(i: nat)
      reads this
      ensures GetBackPre(i) ==> span.length >= 1 && span.start < i
    {
      i <= span.End() && span.End() - i < span.length
    }

    /**
     * `a + b`: the view from `a`'s start to `b`'s end (corrected; the
     * source computes the length as `b.len() - a.start`).
     */
    method Add(rhs: SourceView) returns (r: SourceView)
      requires span.start <= rhs.span.start && span.End() <= rhs.span.End()
      ensures fresh(r) && r.arena == arena && r.span == Sum(span, rhs.span)
    {
      r := new SourceView.Over(arena, Sum(span, rhs.span));
    }
  }

  /**
   * `get_back(i)` accepts exactly the `i` with `start < i <= start + len`:
   * `i` counts back from the absolute end, not from the view's own end.
   */
  lemma GetBackPreIff(v: SourceView, i: nat)
    ensures v.GetBackPre(i) <==> v.span.start < i <= v.span.End()
  {
  }

  /** The span `a + b` covers, from `a`'s start to `b`'s end. */
  function Sum(a: Span, b: Span): (r: Span)
    requires a.start <= b.start && a.End() <= b.End()
    ensures r.start == a.start && r.End() == b.End()
  {
    Arena.Span(a.start, b.End() - a.start)
  }

  /** `a + b` contains both operands, and joins adjacent views into their concatenation. */
  lemma SumCovers(a: Span, b: Span, chars: seq<char>)
    requires a.start <= b.start && a.End() <= b.End()
    ensures Sum(a, b).start <= b.start && a.End() <= Sum(a, b).End()
    ensures b.start == a.End() && b.End() <= |chars| ==> Sum(a, b).Text(chars) == a.Text(chars) + b.Text(chars)
  {
    if b.start == a.End() && b.End() <= |chars| {
      Arena.TextAdjacent(a, b, chars);
    }
  }

  /** `a + b` as written: length `b.len() - a.start`, which must not underflow. */
  function SumAsWritten(a: Span, b: Span): Span
    requires a.start <= b.start && a.End() <= b.End() && a.start <= b.length
  {
    Arena.Span(a.start, b.length - a.start)
  }

  /**
   * For `a = (2, 1)` and the adjacent `b = (3, 2)` the sum as written is
   * `(2, 0)`: empty, and ending before `b` does.
   */
  lemma SumAsWrittenDropsRhs()
    ensures var a, b := Arena.Span(2, 1), Arena.Span(3, 2);
            SumAsWritten(a, b) == Arena.Span(2, 0) && SumAsWritten(a, b).End() < b.End()
  {
  }

  /** What a `Reader` walks: the whole arena, or one view of it. */
  datatype Bounds = Absolute | Relative(view: Span)

  /**
   * The `Reader` of drgns/src/source/arena.rs. Its window `current` is
   * counted from the start of what it walks; the character at window index
   * `k` is the arena's `Base() + k` (corrected: the source reads index `k`).
   */
  class Reader {
    const current: SourceView
    const boundary: Bounds

    /** `from_arena`: an empty window at the start of the whole arena, which the caller's `Rc` keeps alive. */
    constructor FromArena(s: SourceArena)
      requires s.alive
      ensures fresh(current) && current.arena == s && current.span == Arena.Span(0, 0) && boundary == Absolute
      ensures Valid()
    {
      current := new SourceView.Over(s, Arena.Span(0, 0));
      boundary := Absolute;
    }

    /** `from_span`: an empty window at the start of the view `s`. */
    constructor FromSpan(s: SourceView)
      ensures fresh(current) && current.arena == s.arena && current.span == Arena.Span(0, 0) && boundary == Relative(s.span)
      ensures Valid()
    {
      current := new SourceView.Over(s.arena, Arena.Span(0, 0));
      boundary := Relative(s.span);
    }

    /**
     * The window never passes the bound. Only an absolute reader needs its
     * arena to compute that bound; a relative one carries its view.
     */
    ghost predicate Valid()
      reads this, current, current.arena
    {
      (boundary.Absolute? ==> current.arena.alive) &&
      current.span.End() <= RelBounds()
    }

    /**
     * What reading a character needs: the weak reference upgrades, and a
     * relative reader's view lies inside the arena (else `get(..).unwrap()`
     * panics).
     */
    ghost predicate CanRead()
      reads this, current, current.arena
    {
      current.arena.alive &&
      (boundary.Relative? ==> boundary.view.End() <= |current.arena.data|)
    }

    /** `abs_bounds`: the walked range in arena indices. */
    function AbsBounds(): (r: (nat, nat))
      reads this, current, current.arena
      requires boundary.Absolute? ==> current.arena.alive
      ensures r.0 == Base() && r.0 + RelBounds() == r.1
    {
      match boundary
      case Absolute => (0, |current.arena.data|)
      case Relative(s) => (s.start, s.End())
    }

    /** `rel_bounds`: how many characters the reader walks. */
    function RelBounds(): (n: nat)
      reads this, current, current.arena
      requires boundary.Absolute? ==> current.arena.alive
      ensures CanRead() ==> Base() + n <= |current.arena.data|
    {
      match boundary
      case Absolute => |current.arena.data|
      case Relative(s) => s.length
    }

    /** The arena index of window index 0. */
    function Base(): nat
      reads this
    {
      match boundary
      case Absolute => 0
      case Relative(s) => s.start
    }

    /** `is_at_end`: the head has reached the bound. */
    predicate IsAtEnd()
      reads this, current, current.arena
      requires boundary.Absolute? ==> current.arena.alive
      ensures !IsAtEnd() && CanRead() ==> Base() + current.span.End() < |current.arena.data|
    {
      current.span.End() >= RelBounds()
    }

    /** `peek`: the character at the head, unless at the end, where the arena is not consulted. */
    function Peek(): (r: Option<char>)
      reads this, current, current.arena
      requires Valid() && (!IsAtEnd() ==> CanRead())
      ensures r.None? <==> IsAtEnd()
      ensures r.Some? ==> r.value == current.arena.data[AbsBounds().0 + current.span.End()]
    {
      PeekN(0)
    }

    /** `peek_n`: the character `n` past the head, unless that is at or past the bound. */
    function PeekN(n: nat): (r: Option<char>)
      reads this, current, current.arena
      requires Valid() && (current.span.End() + n < RelBounds() ==> CanRead())
      ensures r.None? <==> current.span.End() + n >= RelBounds()
      ensures r.Some? ==> r.value == current.arena.data[AbsBounds().0 + current.span.End() + n]
    {
      if current.span.End() + n >= RelBounds() then None
      else Some(current.arena.data[Base() + current.span.End() + n])
    }

    /** `advance_head` (also `next`): grow the window over the head character. */
    method AdvanceHead() returns (r: Option<char>)
      requires Valid() && (!IsAtEnd() ==> CanRead())
      modifies current
      ensures r == old(Peek())
      ensures r.Some? ==> current.span == Arena.Span(old(current.span.start), old(current.span.length) + 1)
      ensures r.None? ==> current.span == old(current.span)
      ensures Valid()
    {
      r := Peek();
      if r.Some? {
        current.Grow();
      }
    }

    /** `advance_tail`: emit a copy of the window and start an empty one at its end. */
    method AdvanceTail() returns (v: SourceView)
      modifies current
      ensures fresh(v) && v.arena == current.arena && v.span == old(current.span)
      ensures current.span == Arena.Span(v.span.End(), 0)
      ensures old(Valid()) ==> Valid()
    {
      v := new SourceView.Over(current.arena, current.span);
      current.PullTail();
    }
  }

  /**
   * `advance_tail` never upgrades the weak reference: an absolute reader
   * whose arena has been dropped still hands out its window.
   */
  method TailAfterDrop() returns (v: SourceView)
    ensures !v.arena.alive && v.span == Arena.Span(0, 0)
  {
    var a := new SourceArena();
    var r := new Reader.FromArena(a);
    a.Drop();
    v := r.AdvanceTail();
  }

  /** The bound `rel_bounds` computes for an arena of `data`. */
  function BoundOf(data: seq<char>, boundary: Bounds): nat
  {
    match boundary
    case Absolute => |data|
    case Relative(s) => s.length
  }

  /**
   * `peek` as written: it reads arena index `end` whatever the boundary;
   * its `unwrap` needs that index to be inside the arena.
   */
  function PeekAsWritten(data: seq<char>, boundary: Bounds, current: Span): Option<char>
    requires current.End() < BoundOf(data, boundary) ==> current.End() < |data|
  {
    if current.End() >= BoundOf(data, boundary) then None else Some(data[current.End()])
  }

  /**
   * A reader over the view `(3, 2)` of `"abcde"` (the text `"de"`) peeks
   * `'a'` as written instead of the view's first character `'d'`.
   */
  lemma RelativePeekAsWrittenReadsArenaStart()
    ensures var view := Arena.Span(3, 2);
            PeekAsWritten("abcde", Relative(view), Arena.Span(0, 0)) == Some('a') &&
            view.Text("abcde")[0] == 'd'
  {
    Arena.TextInBounds(Arena.Span(3, 2), "abcde");
    assert "abcde"[3..5] == "de";
  }

  /** A relative reader reads its view's own text: window index `k` is character `k` of the view. */
  lemma RelativePeekReadsView(r: Reader, n: nat)
    requires r.Valid() && r.CanRead() && r.boundary.Relative? && r.PeekN(n).Some?
    ensures var view := r.boundary.view;
            r.current.span.End() + n < |view.Text(r.current.arena.data)| &&
            r.PeekN(n).value == view.Text(r.current.arena.data)[r.current.span.End() + n]
  {
    Arena.TextInBounds(r.boundary.view, r.current.arena.data);
  }
}
