/** Text as the reader sees it: Go strings holding Unicode text, modelled as
    sequences of code points, with the trimming helpers the decoder uses. */
module Text {

  /** Go's unicode.IsSpace: the characters with the Unicode White_Space
      property (tab through carriage return, space, NEL, NO-BREAK SPACE, and
      the space characters above U+1680). */
  predicate IsSpace(c: char) {
    var n := c as int;
    || 0x09 <= n <= 0x0D
    || n == 0x20 || n == 0x85 || n == 0xA0 || n == 0x1680
    || 0x2000 <= n <= 0x200A
    || n == 0x2028 || n == 0x2029 || n == 0x202F || n == 0x205F || n == 0x3000
  }

  predicate IsBlank(c: char) {
    c == ' '
  }

  /** Removes the longest prefix whose characters all satisfy `drop`
      (strings.TrimLeftFunc). The result is a suffix of `s`. */
  function TrimLeftBy(s: string, drop: char -> bool): (r: string)
    ensures |r| <= |s| && r == s[|s| - |r|..]
    ensures forall i :: 0 <= i < |s| - |r| ==> drop(s[i])
    ensures r == [] || !drop(r[0])
  {
    if |s| > 0 && drop(s[0]) then TrimLeftBy(s[1..], drop) else s
  }

  /** Removes the longest suffix whose characters all satisfy `drop`
      (strings.TrimRightFunc). The result is a prefix of `s`. */
  function TrimRightBy(s: string, drop: char -> bool): (r: string)
    ensures |r| <= |s| && r == s[..|r|]
    ensures forall i :: |r| <= i < |s| ==> drop(s[i])
    ensures r == [] || !drop(r[|r| - 1])
  {
    if |s| > 0 && drop(s[|s| - 1]) then TrimRightBy(s[..|s| - 1], drop) else s
  }

  /** strings.TrimSpace: leading and trailing white space removed. */
  function TrimSpace(s: string): (r: string)
    ensures |r| <= |s|
    ensures r == [] || (!IsSpace(r[0]) && !IsSpace(r[|r| - 1]))
    ensures r == [] <==> forall i :: 0 <= i < |s| ==> IsSpace(s[i])
  {
    TrimRightBy(TrimLeftBy(s, IsSpace), IsSpace)
  }

  /** strings.TrimRight(s, " "): only trailing U+0020 characters are removed. */
  function TrimRightBlanks(s: string): (r: string)
    ensures |r| <= |s| && r == s[..|r|]
    ensures forall i :: |r| <= i < |s| ==> s[i] == ' '
    ensures r == [] || r[|r| - 1] != ' '
  {
    TrimRightBy(s, IsBlank)
  }

  /** strings.ReplaceAll(s, from, to) for one-character `from` and `to`. */
  function ReplaceChar(s: string, from: char, to: char): (r: string)
    ensures |r| == |s|
    ensures forall i :: 0 <= i < |s| ==> r[i] == (if s[i] == from then to else s[i])
  {
    seq(|s|, i requires 0 <= i < |s| => if s[i] == from then to else s[i])
  }

  /** Number of bytes in the UTF-8 encoding of one code point. */
  function Utf8Width(c: char): nat {
    var n := c as int;
    if n < 0x80 then 1 else if n < 0x800 then 2 else if n < 0x1_0000 then 3 else 4
  }

  /** Go's len on a string: the length of its UTF-8 encoding. */
  function ByteLen(s: string): (n: nat)
    ensures |s| <= n <= 4 * |s|
    ensures (forall i :: 0 <= i < |s| ==> s[i] as int < 0x80) ==> n == |s|
  {
    if |s| == 0 then 0 else ByteLen(s[..|s| - 1]) + Utf8Width(s[|s| - 1])
  }

  /** Trimming a right-padded string removes exactly the padding. */
  lemma {:induction false} TrimRightPadded(core: string, pad: string, drop: char -> bool)
    requires forall i :: 0 <= i < |pad| ==> drop(pad[i])
    requires core == [] || !drop(core[|core| - 1])
    ensures TrimRightBy(core + pad, drop) == core
  {
    if pad == [] {
      assert core + pad == core;
    } else {
      var s := core + pad;
      assert s[|s| - 1] == pad[|pad| - 1];
      assert s[..|s| - 1] == core + pad[..|pad| - 1];
      TrimRightPadded(core, pad[..|pad| - 1], drop);
    }
  }

  /** Trimming a left-padded string removes exactly the padding. */
  lemma {:induction false} TrimLeftPadded(pad: string, core: string, drop: char -> bool)
    requires forall i :: 0 <= i < |pad| ==> drop(pad[i])
    requires core == [] || !drop(core[0])
    ensures TrimLeftBy(pad + core, drop) == core
  {
    if pad == [] {
      assert pad + core == core;
    } else {
      var s := pad + core;
      assert s[0] == pad[0];
      assert s[1..] == pad[1..] + core;
      TrimLeftPadded(pad[1..], core, drop);
    }
  }

  /** TrimSpace undoes white-space padding on both sides: the inverse of
      padding a string whose ends are not white space. */
  lemma {:induction false} TrimSpaceInvertsPadding(left: string, core: string, right: string)
    requires forall i :: 0 <= i < |left| ==> IsSpace(left[i])
    requires forall i :: 0 <= i < |right| ==> IsSpace(right[i])
    requires core == [] || (!IsSpace(core[0]) && !IsSpace(core[|core| - 1]))
    ensures TrimSpace(left + core + right) == core
  {
    assert left + core + right == left + (core + right);
    if core == [] {
      assert forall i :: 0 <= i < |core + right| ==> IsSpace((core + right)[i]);
      TrimLeftPadded(left + right, [], IsSpace);
      assert left + (core + right) == left + right + [];
      TrimRightPadded([], [], IsSpace);
    } else {
      TrimLeftPadded(left, core + right, IsSpace);
      TrimRightPadded(core, right, IsSpace);
    }
  }
}
