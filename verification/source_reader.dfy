/**
 * The two-index cursor of drgns/src/source/reader.rs over a `Source`'s
 * characters: `back` marks the start of the window being built, `front` the
 * next character to read. The reader holds a weak reference to its source;
 * once the source is dropped the reader reads as exhausted and every lookup
 * is `None`.
 */
module SourceReader {
  import opened Wrappers

  /** A piece of source code: its characters, and whether it is still alive. */
  class Source {
    const src: seq<char>
    var alive: bool

    /** `Source::from_string`: the characters of `s`. */
    constructor FromString(s: string)
      ensures src == s && alive
    {
      src := s;
      alive := true;
    }

    /** The last strong reference going away. */
    method Drop()
      modifies this
      ensures !alive
    {
      alive := false;
    }
  }

  /** A `SourceString`: the range `back..front` of the source it came from. */
  datatype SourceString = SourceString(back: nat, front: nat) {
    /** The characters of the range. */
    function Text(src: seq<char>): (t: string)
      requires back <= front <= |src|
      ensures |t| == front - back
      ensures forall k :: 0 <= k < |t| ==> t[k] == src[back + k]
    {
      src[back..front]
    }
  }

  class Reader {
    const source: Source
    var back: nat
    var front: nat

    /** A reader with an empty window at the start of `source`. */
    constructor (source: Source)
      ensures this.source == source && back == 0 && front == 0
      ensures Valid()
    {
      this.source := source;
      back := 0;
      front := 0;
    }

    /** The window is well formed: its back does not pass its front. */
    ghost predicate Valid()
      reads this
    {
      back <= front
    }

    /** `inner_len`: the source length, if the source is alive. */
    function InnerLen(): (r: Option<nat>)
      reads this, source
      ensures r.Some? <==> source.alive
      ensures r.Some? ==> r.value == |source.src|
    {
      if source.alive then Some(|source.src|) else None
    }

    /** `exhausted`: the source is gone, or the front is at or past its end. */
    function Exhausted(): (b: bool)
      reads this, source
      ensures b <==> !source.alive || front >= |source.src|
    {
      match InnerLen()
      case None => true
      case Some(len) => front >= len
    }

    /** `get_from_inner`: the source character at `i`, if there is a live source that long. */
    function GetFromInner(i: nat): (r: Option<char>)
      reads this, source
      ensures r.Some? <==> source.alive && i < |source.src|
      ensures r.Some? ==> r.value == source.src[i]
    {
      if source.alive && i < |source.src| then Some(source.src[i]) else None
    }

    /** `peek_n`: the character `i` past the front. */
    function PeekN(i: nat): (r: Option<char>)
      reads this, source
      ensures r.Some? <==> source.alive && front + i < |source.src|
      ensures r.Some? ==> r.value == source.src[front + i]
    {
      GetFromInner(front + i)
    }

    /** `previous`: the character before the front; `front - 1` must not underflow. */
    function Previous(): (r: Option<char>)
      reads this, source
      requires front >= 1
      ensures r.Some? <==> source.alive && front <= |source.src|
      ensures r.Some? ==> r.value == source.src[front - 1]
    {
      GetFromInner(front - 1)
    }

    /** `peek_back_n`: the character `i` past the back. */
    function PeekBackN(i: nat): (r: Option<char>)
      reads this, source
      ensures r.Some? <==> source.alive && back + i < |source.src|
      ensures r.Some? ==> r.value == source.src[back + i]
    {
      GetFromInner(back + i)
    }

    /** `front`, the trait's default: the character `advance` would return. */
    function Front(): (r: Option<char>)
      reads this, source
      ensures r == PeekN(0)
      ensures !Exhausted() ==> r == Some(source.src[front])
    {
      PeekN(0)
    }

    /** `back`, the trait's default: the first character of the window. */
    function Back(): (r: Option<char>)
      reads this, source
      ensures r == PeekBackN(0)
      ensures source.alive && back < |source.src| ==> r == Some(source.src[back])
    {
      PeekBackN(0)
    }

    /** `window_len`: how many characters the window holds. */
    function WindowLen(): (n: nat)
      reads this
      requires back <= front
      ensures back + n == front
    {
      front - back
    }

    /** `window_is_empty`: the window holds nothing. */
    function WindowIsEmpty(): (b: bool)
      reads this
      requires back <= front
      ensures b <==> front == back
      ensures b <==> WindowLen() == 0
    {
      front - back == 0
    }

    /** `advance`: read the front character and move past it, unless exhausted. */
    method Advance() returns (r: Option<char>)
      requires Valid()
      modifies this
      ensures back == old(back) && Valid()
      ensures old(Exhausted()) ==> r.None? && front == old(front)
      ensures !old(Exhausted()) ==> r == Some(source.src[old(front)]) && front == old(front) + 1
      ensures r == old(Front())
    {
      if Exhausted() {
        return None;
      }
      r := GetFromInner(front);
      front := front + 1;
    }

    /**
     * `consume`: close the window, moving the back up to the front; the old
     * window is returned unless the reader is now exhausted.
     */
    method Consume() returns (r: Option<SourceString>)
      requires Valid()
      modifies this
      ensures back == old(front) && front == old(front) && Valid()
      ensures WindowIsEmpty()
      ensures r == if Exhausted() then None else Some(SourceString(old(back), old(front)))
      ensures r.Some? ==> r.value.Text(source.src) == source.src[old(back)..old(front)]
    {
      var ret := SourceString(back, front);
      back := front;
      if Exhausted() {
        return None;
      }
      r := Some(ret);
    }

    /** `burn`, the trait's default: consume and discard. */
    method Burn()
      requires Valid()
      modifies this
      ensures back == old(front) && front == old(front) && Valid()
    {
      var _ := Consume();
    }

    /** `reset`: move the front back to the back, emptying the window. */
    method Reset()
      requires Valid()
      modifies this
      ensures back == old(back) && front == old(back) && Valid()
      ensures WindowIsEmpty()
    {
      front := back;
    }
  }

  /** A reader whose source is gone is exhausted, and every lookup is `None`. */
  lemma DroppedIsExhausted(r: Reader)
    requires !r.source.alive
    ensures r.Exhausted() && r.Front().None? && r.Back().None?
    ensures forall i: nat :: r.PeekN(i).None? && r.PeekBackN(i).None?
    ensures r.front >= 1 ==> r.Previous().None?
  {
  }

  /** What the `j`-th `advance` from front `b` returns: the character there, if the source is alive and that long. */
  function ReadFrom(src: seq<char>, alive: bool, b: nat, j: nat): (r: Option<char>)
    ensures r.Some? <==> alive && b + j < |src|
  {
    if alive && b + j < |src| then Some(src[b + j]) else None
  }

  /** Where the front stands after `i` calls of `advance` from `b`: it stops at the end of a live source. */
  function FrontAfter(len: nat, alive: bool, b: nat, i: nat): (f: nat)
    ensures b <= f <= b + i
  {
    if alive && b + i <= len then b + i
    else if alive && b <= len then len
    else b
  }

  /**
   * A window read by `advance` and then given up by `reset` is read again:
   * after `k` advances and a `reset`, the next `k` advances return the same
   * characters, the source's characters from the back on while it lasts.
   */
  method AdvanceResetReplays(r: Reader, k: nat) returns (read: seq<Option<char>>, replay: seq<Option<char>>)
    requires r.Valid() && r.back == r.front
    modifies r
    ensures |read| == k && replay == read
    ensures forall j :: 0 <= j < k ==> read[j] == ReadFrom(r.source.src, r.source.alive, r.back, j)
    ensures r.back == old(r.back) && r.Valid()
  {
    var b := r.back;
    ghost var src, alive := r.source.src, r.source.alive;
    read := [];
    for i := 0 to k
      invariant r.back == b && r.front == FrontAfter(|src|, alive, b, i) && r.Valid()
      invariant |read| == i && forall j :: 0 <= j < i ==> read[j] == ReadFrom(src, alive, b, j)
    {
      var c := r.Advance();
      read := read + [c];
    }
    r.Reset();
    replay := [];
    for i := 0 to k
      invariant r.back == b && r.front == FrontAfter(|src|, alive, b, i) && r.Valid()
      invariant |replay| == i && forall j :: 0 <= j < i ==> replay[j] == read[j]
    {
      var c := r.Advance();
      replay := replay + [c];
    }
  }
}
