/**
  Python's `str.isspace` and `str.strip()` with no argument, which the relay
  applies to transcripts (stream_server.py lines 953 and 961) and the report
  generator to the log text and to the model's reply (lines 686 and 715).
*/
module Text {

  /** The characters Python's `str.isspace` accepts: those whose bidirectional
      class is WS, B or S, or whose category is Zs. */
  predicate IsSpace(c: char)
  {
    var n := c as int;
    (0x09 <= n <= 0x0D) || (0x1C <= n <= 0x20) || n == 0x85 || n == 0xA0
    || n == 0x1680 || (0x2000 <= n <= 0x200A) || n == 0x2028 || n == 0x2029
    || n == 0x202F || n == 0x205F || n == 0x3000
  }

  /** Nothing but whitespace (the empty string included): `not s.strip()`. */
  predicate IsBlank(s: string)
  {
    forall i :: 0 <= i < |s| ==> IsSpace(s[i])
  }

  /** The number of whitespace characters `s` starts with. */
  function Leading(s: string): (n: nat)
    ensures n <= |s|
    ensures forall k :: 0 <= k < n ==> IsSpace(s[k])
    ensures n < |s| ==> !IsSpace(s[n])
    decreases |s|
  {
    if s == [] || !IsSpace(s[0]) then 0
    else
      var n := Leading(s[1..]);
      assert forall k :: 1 <= k < n + 1 ==> s[k] == s[1..][k - 1];
      1 + n
  }

  /** The number of whitespace characters `s` ends with. */
  function Trailing(s: string): (n: nat)
    ensures n <= |s|
    ensures forall k :: |s| - n <= k < |s| ==> IsSpace(s[k])
    ensures n < |s| ==> !IsSpace(s[|s| - 1 - n])
    decreases |s|
  {
    if s == [] || !IsSpace(s[|s| - 1]) then 0
    else
      var init := s[..|s| - 1];
      var n := Trailing(init);
      assert forall k :: |s| - 1 - n <= k < |s| - 1 ==> s[k] == init[k];
      1 + n
  }

  /** `s.lstrip()`. */
  function TrimStart(s: string): string
  {
    s[Leading(s)..]
  }

  /** `s.rstrip()`. */
  function TrimEnd(s: string): string
  {
    s[..|s| - Trailing(s)]
  }

  /** `s.strip()`. */
  function Strip(s: string): string
  {
    TrimEnd(TrimStart(s))
  }

  /** What strip keeps: the part of `s` after its leading whitespace and before
      its trailing whitespace, with no whitespace at either end. */
  lemma StripShape(s: string)
    ensures var i, r := Leading(s), Strip(s);
      i + |r| <= |s| && r == s[i..i + |r|]
      && (forall k :: 0 <= k < i ==> IsSpace(s[k]))
      && (forall k :: i + |r| <= k < |s| ==> IsSpace(s[k]))
    ensures Strip(s) == [] || (!IsSpace(Strip(s)[0]) && !IsSpace(Strip(s)[|Strip(s)| - 1]))
  {
    StripKept(s);
    StripTail(s);
    StripEnds(s);
  }

  lemma StripKept(s: string)
    ensures Leading(s) + |Strip(s)| <= |s|
    ensures Strip(s) == s[Leading(s)..Leading(s) + |Strip(s)|]
  {
    var i := Leading(s);
    var a := s[i..];
    var j := |a| - Trailing(a);
    assert Strip(s) == a[..j];
  }

  lemma StripTail(s: string)
    ensures Leading(s) + |Strip(s)| <= |s|
    ensures forall k :: Leading(s) + |Strip(s)| <= k < |s| ==> IsSpace(s[k])
  {
    var i := Leading(s);
    var a := s[i..];
    var j := |a| - Trailing(a);
    assert |Strip(s)| == j;
    assert forall k :: i + j <= k < |s| ==> s[k] == a[k - i];
  }

  lemma StripEnds(s: string)
    ensures Strip(s) == [] || (!IsSpace(Strip(s)[0]) && !IsSpace(Strip(s)[|Strip(s)| - 1]))
  {
    var i := Leading(s);
    var a := s[i..];
    var j := |a| - Trailing(a);
    if j > 0 {
      assert Strip(s)[0] == a[0];
      assert Strip(s)[j - 1] == a[j - 1];
    }
  }

  /** strip yields the empty string exactly on blank text. */
  lemma StripEmptyIffBlank(s: string)
    ensures Strip(s) == [] <==> IsBlank(s)
  {
    StripShape(s);
  }

  /** Stripping twice is stripping once. */
  lemma StripIdempotent(s: string)
    ensures Strip(Strip(s)) == Strip(s)
  {
    var r := Strip(s);
    StripShape(s);
    assert Leading(r) == 0;
    assert r[0..] == r;
    assert Trailing(r) == 0;
    assert r[..|r|] == r;
  }
}
