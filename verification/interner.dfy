/**
 * The line interner of drgns/src/interner.rs: an append-only store of
 * source lines, spans `(lin_start, col_start, lin_len, col_len)` over it, and
 * a `Display` that cuts a span's text out of one or more lines.
 *
 * Columns are counted in characters here; see the README for how that
 * relates to the source's byte offsets.
 */
module Interner {
  import opened Wrappers
  import Arena

  /** A span over the line store: `lin_len` lines from `lin_start`, cut by columns. */
  datatype LineSpan = LineSpan(linStart: nat, colStart: nat, linLen: nat, colLen: nat)

  /**
   * The first line of `s` and what follows its `'\n'`, or all of `s` and
   * `None` when it holds no `'\n'`.
   */
  function FirstLine(s: string): (r: (string, Option<string>))
    ensures '\n' !in r.0
    ensures r.1.None? ==> r.0 == s
    ensures r.1.Some? ==> s == r.0 + ['\n'] + r.1.value
  {
    if s == [] then ([], None)
    else if s[0] == '\n' then ([], Some(s[1..]))
    else
      var (l, rest) := FirstLine(s[1..]);
      ([s[0]] + l, rest)
  }

  /** A line with its `'\r'` removed, when it ended with `"\r\n"`. */
  function StripCr(l: string): (r: string)
    ensures '\r' !in l ==> r == l
    ensures '\n' !in l ==> '\n' !in r
  {
    if |l| > 0 && l[|l| - 1] == '\r' then l[..|l| - 1] else l
  }

  /**
   * `str::lines`: split at `'\n'` and at `"\r\n"`; the last line needs no
   * terminator, and the empty string has no lines.
   */
  function Lines(s: string): (ls: seq<string>)
    decreases |s|
    ensures s != [] <==> |ls| >= 1
  {
    if s == [] then []
    else
      var (l, rest) := FirstLine(s);
      match rest
      case None => [l]
      case Some(t) => [StripCr(l)] + Lines(t)
  }

  /** `join(sep)`: the strings with `sep` between each two. */
  function Join(ls: seq<string>, sep: string): string
  {
    if |ls| == 0 then []
    else if |ls| == 1 then ls[0]
    else ls[0] + sep + Join(ls[1..], sep)
  }

  /** No line `str::lines` yields holds a `'\n'`. */
  lemma {:induction false} LinesHaveNoNewline(s: string)
    decreases |s|
    ensures forall k :: 0 <= k < |Lines(s)| ==> '\n' !in Lines(s)[k]
  {
    if s != [] {
      var (l, rest) := FirstLine(s);
      if rest.Some? {
        LinesHaveNoNewline(rest.value);
      }
    }
  }

  /**
   * Joining the lines of `s` with `"\n"` gives back `s`, when `s` uses no
   * `'\r'` and does not end with a `'\n'` (which `str::lines` drops).
   */
  lemma {:induction false} LinesJoinRoundTrip(s: string)
    requires '\r' !in s
    requires s == [] || s[|s| - 1] != '\n'
    decreases |s|
    ensures Join(Lines(s), "\n") == s
  {
    if s != [] {
      var (l, rest) := FirstLine(s);
      if rest.Some? {
        var t := rest.value;
        assert s == l + ['\n'] + t;
        assert t != [];
        assert '\r' !in l && '\r' !in t by {
          assert forall c :: c in l || c in t ==> c in s;
        }
        assert t[|t| - 1] == s[|s| - 1];
        LinesJoinRoundTrip(t);
        assert Lines(s) == [l] + Lines(t);
        assert |Lines(t)| >= 1;
      }
    }
  }

  /** The lines `skip(lin_start).take(lin_len)` collects. */
  function Taken(sp: LineSpan, lines: seq<string>): (slice: seq<string>)
    ensures |slice| <= sp.linLen
  {
    if sp.linStart >= |lines| then []
    else lines[sp.linStart..sp.linStart + Arena.Min(sp.linLen, |lines| - sp.linStart)]
  }

  /**
   * What `Display` needs not to panic: at least one line collected (else
   * `slice.len() - 1` underflows), and column cuts that lie within their lines.
   */
  predicate ShowDefined(sp: LineSpan, lines: seq<string>)
  {
    var slice := Taken(sp, lines);
    |slice| >= 1 &&
    if |slice| == 1 then sp.colStart + sp.colLen <= |slice[0]|
    else sp.colStart <= |slice[0]| && sp.colLen <= |slice[|slice| - 1]|
  }

  /**
   * A span can be displayed exactly when it starts at a stored line, covers
   * at least one, and its column cuts fit the first and the last line
   * collected (`take` stops at the last stored line).
   */
  lemma ShowDefinedIff(sp: LineSpan, lines: seq<string>)
    ensures ShowDefined(sp, lines) <==>
              sp.linStart < |lines| && sp.linLen >= 1 &&
              var last := sp.linStart + Arena.Min(sp.linLen, |lines| - sp.linStart) - 1;
              if last == sp.linStart then sp.colStart + sp.colLen <= |lines[sp.linStart]|
              else sp.colStart <= |lines[sp.linStart]| && sp.colLen <= |lines[last]|
  {
    if sp.linStart < |lines| && sp.linLen >= 1 {
      var slice := Taken(sp, lines);
      var m := Arena.Min(sp.linLen, |lines| - sp.linStart);
      assert |slice| == m && slice[0] == lines[sp.linStart];
      assert slice[m - 1] == lines[sp.linStart + m - 1];
    }
  }

  /**
   * `Display for Span`: on one line, the columns `[col_start, col_start +
   * col_len)`; on several, the first line from `col_start`, the middle lines
   * whole and the last line up to `col_len`, joined by `"\n"`.
   */
  function Show(sp: LineSpan, lines: seq<string>): (s: string)
    requires ShowDefined(sp, lines)
    ensures |Taken(sp, lines)| == 1 ==> |s| == sp.colLen
  {
    var slice := Taken(sp, lines);
    var last := |slice| - 1;
    if last == 0 then slice[0][sp.colStart..sp.colStart + sp.colLen]
    else Join([slice[0][sp.colStart..]] + slice[1..last] + [slice[last][..sp.colLen]], "\n")
  }

  /** The one-line span `intern_raw` gives a stored line displays as that line. */
  lemma ShowWholeLine(lines: seq<string>, i: nat)
    requires i < |lines|
    ensures ShowDefined(LineSpan(i, 0, 1, |lines[i]|), lines)
    ensures Show(LineSpan(i, 0, 1, |lines[i]|), lines) == lines[i]
  {
    assert Taken(LineSpan(i, 0, 1, |lines[i]|), lines) == [lines[i]];
    assert lines[i][0..|lines[i]|] == lines[i];
  }

  /** A span over whole stored lines displays as those lines joined by `"\n"`. */
  lemma ShowWholeLines(lines: seq<string>, i: nat, n: nat)
    requires n >= 1 && i + n <= |lines|
    ensures var sp := LineSpan(i, 0, n, |lines[i + n - 1]|);
            ShowDefined(sp, lines) && Show(sp, lines) == Join(lines[i..i + n], "\n")
  {
    var sp := LineSpan(i, 0, n, |lines[i + n - 1]|);
    var slice := lines[i..i + n];
    assert Taken(sp, lines) == slice;
    if n == 1 {
      assert slice[0][0..|slice[0]|] == slice[0];
    } else {
      assert slice[0][0..] == slice[0];
      assert slice[n - 1][..|slice[n - 1]|] == slice[n - 1];
      assert [slice[0]] + slice[1..n - 1] + [slice[n - 1]] == slice;
    }
  }

  /** Lines appended to a store display, as one span, as their join. */
  lemma ShowAppended(before: seq<string>, ls: seq<string>)
    requires |ls| >= 1
    ensures var sp := LineSpan(|before|, 0, |ls|, |ls[|ls| - 1]|);
            ShowDefined(sp, before + ls) && Show(sp, before + ls) == Join(ls, "\n")
  {
    var lines := before + ls;
    var i, n := |before|, |ls|;
    assert lines[i + n - 1] == ls[n - 1];
    ShowWholeLines(lines, i, n);
    assert lines[i..i + n] == ls;
  }

  /**
   * After `intern_raw(src)` on a store holding `before`, the span over all
   * of `src`'s lines displays as `src` itself, when `src` is non-empty, uses
   * no `'\r'` and does not end with a `'\n'`.
   */
  lemma DisplayReproducesSource(before: seq<string>, src: string)
    requires src != [] && '\r' !in src && src[|src| - 1] != '\n'
    ensures var ls := Lines(src);
            var sp := LineSpan(|before|, 0, |ls|, |ls[|ls| - 1]|);
            ShowDefined(sp, before + ls) && Show(sp, before + ls) == src
  {
    var ls := Lines(src);
    assert |ls| >= 1;
    LinesJoinRoundTrip(src);
    ShowAppended(before, ls);
  }

  /** The global `STRING_ARENA` of lines: lines are only ever appended. */
  class LineArena {
    var lines: seq<string>

    constructor ()
      ensures lines == []
    {
      lines := [];
    }

    /**
     * `intern_raw`: push each line of `src` and return, per line, the span
     * of the whole of it, which displays as that line.
     */
    method InternRaw(src: string) returns (spans: seq<LineSpan>)
      modifies this
      ensures lines == old(lines) + Lines(src)
      ensures |spans| == |Lines(src)|
      ensures forall k :: 0 <= k < |spans| ==> spans[k] == LineSpan(|old(lines)| + k, 0, 1, |Lines(src)[k]|)
      ensures forall k :: 0 <= k < |spans| ==> ShowDefined(spans[k], lines) && Show(spans[k], lines) == Lines(src)[k]
    {
      var ls := Lines(src);
      spans := [];
      for k := 0 to |ls|
        invariant lines == old(lines) + ls[..k]
        invariant |spans| == k
        invariant forall j :: 0 <= j < k ==> spans[j] == LineSpan(|old(lines)| + j, 0, 1, |ls[j]|)
      {
        var idx := |lines|;
        lines := lines + [ls[k]];
        spans := spans + [LineSpan(idx, 0, 1, |ls[k]|)];
      }
      assert ls[..|ls|] == ls;
      forall k | 0 <= k < |spans|
        ensures ShowDefined(spans[k], lines) && Show(spans[k], lines) == ls[k]
      {
        ShowWholeLine(lines, |old(lines)| + k);
      }
    }
  }

  /** `"a\r\nb".lines()` is `["a", "b"]`: the `'\r'` of a `"\r\n"` is dropped. */
  lemma CrLfExample()
    ensures Lines("a\r\nb") == ["a", "b"]
  {
    assert FirstLine("b") == ("b", None);
    assert FirstLine("\nb") == ("", Some("b"));
    assert "\r\nb"[1..] == "\nb" && "\nb"[1..] == "b";
    assert "\r\nb"[0] == '\r';
    assert FirstLine("\r\nb") == (['\r'] + FirstLine("\nb").0, FirstLine("\nb").1);
    assert ['\r'] + "" == "\r";
    assert FirstLine("\r\nb") == ("\r", Some("b"));
    assert "a\r\nb"[1..] == "\r\nb";
    assert "a\r\nb"[0] == 'a';
    assert FirstLine("a\r\nb") == (['a'] + FirstLine("\r\nb").0, FirstLine("\r\nb").1);
    assert ['a'] + "\r" == "a\r";
    assert FirstLine("a\r\nb") == ("a\r", Some("b"));
    assert StripCr("a\r") == "a";
  }

  /** `"x\r".lines()` is `["x\r"]`: a bare `'\r'` at the end is kept. */
  lemma BareCrExample()
    ensures Lines("x\r") == ["x\r"]
  {
    assert "x\r"[1..] == "\r" && "\r"[1..] == [];
    assert FirstLine("\r") == ("\r", None);
    assert FirstLine("x\r") == ("x\r", None);
  }
}
