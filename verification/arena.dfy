/**
 * The first arena snapshot (drgns/src/arena.rs): one append-only character
 * arena, spans `(start, length)` over it, and a `Reader` whose window grows
 * at its head and is emitted from its tail.
 */
module Arena {
  import opened Wrappers
  import Utf8

  function Min(a: nat, b: nat): nat { if a <= b then a else b }

  /** A window `[start, start + length)` of the arena. */
  datatype Span = Span(start: nat, length: nat) {
    /** `end`: the first index past the window; the window is exactly `[start, end)`. */
    function End(): (e: nat)
      ensures e >= start && e - start == length
    {
      start + length
    }

    /**
     * `to_string`: the arena characters skipped past `start` and taken up
     * to `length` of them; an iterator that runs out simply yields fewer.
     */
    function Text(chars: seq<char>): (t: string)
      ensures |t| == if start < |chars| then Min(length, |chars| - start) else 0
      ensures forall k :: 0 <= k < |t| ==> t[k] == chars[start + k]
    {
      if start < |chars| then chars[start..start + Min(length, |chars| - start)] else []
    }

    /**
     * `get_back(i)`: its precondition `start + length - i < length` (with the
     * `usize` subtraction not underflowing), and the character it returns,
     * which is the span's last one whatever `i` is.
     */
    function GetBack(chars: seq<char>, i: nat): (c: char)
      requires i <= start + length && start + length - i < length
      requires End() <= |chars|
      ensures length >= 1 && |Text(chars)| == length
      ensures c == Text(chars)[length - 1]
    {
      chars[start + length - 1]
    }
  }

  /** A span that lies inside an arena of `n` characters has all its text. */
  lemma {:induction false} TextInBounds(s: Span, chars: seq<char>)
    requires s.End() <= |chars|
    ensures s.Text(chars) == chars[s.start..s.End()]
  {
    if s.start < |chars| {
      assert Min(s.length, |chars| - s.start) == s.length;
    } else {
      assert s.length == 0;
    }
  }

  /** Two adjacent spans spell the concatenation of their texts. */
  lemma {:induction false} TextAdjacent(a: Span, b: Span, chars: seq<char>)
    requires b.start == a.End() && b.End() <= |chars|
    ensures Span(a.start, a.length + b.length).Text(chars) == a.Text(chars) + b.Text(chars)
  {
    TextInBounds(a, chars);
    TextInBounds(b, chars);
    TextInBounds(Span(a.start, a.length + b.length), chars);
    assert chars[a.start..b.End()] == chars[a.start..a.End()] + chars[b.start..b.End()];
  }

  /** The global `STRING_ARENA`: characters are only ever appended. */
  class CharArena {
    var chars: seq<char>

    constructor ()
      ensures chars == []
    {
      chars := [];
    }

    /**
     * `intern`: push every character of `src` and return the span over
     * them, starting at the old arena length.
     */
    method Intern(src: string) returns (s: Span)
      modifies this
      ensures chars == old(chars) + src
      ensures s == Span(|old(chars)|, |src|)
      ensures s.Text(chars) == src
    {
      var start := |chars|;
      var length := |src|;
      for i := 0 to |src|
        invariant chars == old(chars) + src[..i]
      {
        chars := chars + [src[i]];
      }
      assert src[..|src|] == src;
      s := Span(start, length);
      TextInBounds(s, chars);
      assert chars[start..s.End()] == src;
    }
  }

  /**
   * The span `intern` builds as written: its length is `src.len()`, the
   * UTF-8 byte count, while the arena grows by one slot per character.
   */
  function InternSpanAsWritten(arenaLength: nat, src: string): Span
  {
    Span(arenaLength, Utf8.ByteLen(src))
  }

  /** The as-written span is the span of the interned characters exactly when `src` is ASCII. */
  lemma InternSpanAsWrittenIffAscii(arenaLength: nat, src: string)
    ensures InternSpanAsWritten(arenaLength, src) == Span(arenaLength, |src|) <==> Utf8.IsAscii(src)
  {
    Utf8.ByteLenIsCharCount(src);
  }

  /**
   * Interning `"é"` into an empty arena stores one character but returns
   * the span `(0, 2)`, which ends past the arena.
   */
  lemma InternAsWrittenOverruns()
    ensures var s := InternSpanAsWritten(0, "é");
            s == Span(0, 2) && s.End() > |"é"|
  {
    Utf8.AccentedLetter();
  }

  /**
   * `is_at_end` as written: it tests the window's start rather than its head,
   * so it reports "not at end" while the head is already past the last
   * character.
   */
  predicate IsAtEndAsWritten(current: Span, arenaLength: nat)
  {
    current.start >= arenaLength
  }

  /**
   * After reading the only character of a one-character arena the window is
   * `(0, 1)`: the as-written test says there is more to read, so `peek` would
   * index the arena at 1, one past its end.
   */
  lemma IsAtEndAsWrittenLetsPeekPastEnd()
    ensures var current := Span(0, 1);
            !IsAtEndAsWritten(current, 1) && current.End() == 1
  {
  }

  /** The reader over the arena: the current window is `current`. */
  class Reader {
    const arena: CharArena
    var current: Span

    /** `Reader::new`: an empty window at the start of the arena. */
    constructor (arena: CharArena)
      ensures this.arena == arena && current == Span(0, 0)
    {
      this.arena := arena;
      current := Span(0, 0);
    }

    /** `head_idx`: the index of the next character to read. */
    function HeadIdx(): (h: nat)
      reads this
      ensures h >= current.start && h - current.start == current.length
    {
      current.End()
    }

    /** The end test on the head index (corrected from the start test). */
    predicate IsAtEnd()
      reads this, arena
      ensures !IsAtEnd() <==> HeadIdx() < |arena.chars|
    {
      HeadIdx() >= |arena.chars|
    }

    /** `peek`: the character at the head, if there is one. */
    function Peek(): (r: Option<char>)
      reads this, arena
      ensures r.Some? <==> HeadIdx() < |arena.chars|
      ensures r.Some? ==> r.value == arena.chars[HeadIdx()]
    {
      if IsAtEnd() then None else Some(arena.chars[HeadIdx()])
    }

    /** `peek2`: the character one past the head, if there is one. */
    function Peek2(): (r: Option<char>)
      reads this, arena
      ensures r.Some? <==> HeadIdx() + 1 < |arena.chars|
      ensures r.Some? ==> r.value == arena.chars[HeadIdx() + 1]
    {
      if HeadIdx() + 1 >= |arena.chars| then None else Some(arena.chars[HeadIdx() + 1])
    }

    /** `advance_head` (also `next`): take the head character into the window. */
    method AdvanceHead() returns (r: Option<char>)
      modifies this
      ensures r == old(Peek())
      ensures r.Some? ==> current == Span(old(current.start), old(current.length) + 1)
      ensures r.None? ==> current == old(current)
    {
      r := Peek();
      if r.Some? {
        current := current.(length := current.length + 1);
      }
    }

    /** `advance_tail`: emit the window and start an empty one at its end. */
    method AdvanceTail() returns (s: Span)
      modifies this
      ensures s == old(current)
      ensures current == Span(s.End(), 0)
    {
      s := current;
      current := Span(HeadIdx(), 0);
    }
  }
}
