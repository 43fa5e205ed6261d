/**
 * Rust's `String::len` counts UTF-8 bytes, not characters; both arenas size
 * an interned span with it.
 */
module Utf8 {
  /** How many bytes UTF-8 spends on `c`. */
  function CharLen(c: char): (n: nat)
    ensures 1 <= n <= 4
    ensures n == 1 <==> (c as int) < 0x80
  {
    if (c as int) < 0x80 then 1
    else if (c as int) < 0x800 then 2
    else if (c as int) < 0x1_0000 then 3
    else 4
  }

  /** `s.len()`: the UTF-8 length of `s`. */
  function ByteLen(s: string): (n: nat)
    ensures n >= |s|
  {
    if s == [] then 0 else CharLen(s[0]) + ByteLen(s[1..])
  }

  predicate IsAscii(s: string)
  {
    forall k :: 0 <= k < |s| ==> (s[k] as int) < 0x80
  }

  /** Byte length and character count agree exactly on ASCII text. */
  lemma {:induction false} ByteLenIsCharCount(s: string)
    ensures ByteLen(s) == |s| <==> IsAscii(s)
    decreases |s|
  {
    if s != [] {
      ByteLenIsCharCount(s[1..]);
      assert forall k :: 1 <= k < |s| ==> s[k] == s[1..][k - 1];
    }
  }

  /** `"é"` is one character but two bytes. */
  lemma AccentedLetter()
    ensures |"é"| == 1 && ByteLen("é") == 2
  {
    assert "é"[1..] == [];
  }
}
