/** The three Python string methods the request handlers apply to form
    fields and stored values: `str.strip()`, `str.isdigit()` and
    `str.lower()`, on sequences of code points. */
module Text {

  /** The code points Python's `str.isspace` accepts: the ASCII controls
      TAB..CR, the separators 0x1C..0x1F, SPACE, NEL, NBSP and the Unicode
      space separators. */
  const Whitespace: set<char> :=
    { '\t', '\n', '\U{0B}', '\U{0C}', '\r', '\U{1C}', '\U{1D}', '\U{1E}', '\U{1F}', ' ',
      '\U{85}', '\U{A0}', '\U{1680}',
      '\U{2000}', '\U{2001}', '\U{2002}', '\U{2003}', '\U{2004}', '\U{2005}',
      '\U{2006}', '\U{2007}', '\U{2008}', '\U{2009}', '\U{200A}',
      '\U{2028}', '\U{2029}', '\U{202F}', '\U{205F}', '\U{3000}' }

  /** Python's `str.isspace` for one code point. */
  predicate IsSpace(c: char) {
    c in Whitespace
  }

  /** Drops leading whitespace. */
  function TrimLeft(s: string): (r: string)
    ensures |r| <= |s| && r == s[|s| - |r|..]
    ensures forall k :: 0 <= k < |s| - |r| ==> IsSpace(s[k])
    ensures r == [] || !IsSpace(r[0])
  {
    if s == [] || !IsSpace(s[0]) then s
    else
      var r := TrimLeft(s[1..]);
      assert forall k :: 1 <= k < |s| - |r| ==> s[k] == s[1..][k - 1];
      r
  }

  /** Drops trailing whitespace. */
  function TrimRight(s: string): (r: string)
    ensures |r| <= |s| && r == s[..|r|]
    ensures forall k :: |r| <= k < |s| ==> IsSpace(s[k])
    ensures r == [] || !IsSpace(r[|r| - 1])
  {
    if s == [] || !IsSpace(s[|s| - 1]) then s
    else
      var r := TrimRight(s[..|s| - 1]);
      assert forall k :: |r| <= k < |s| - 1 ==> s[k] == s[..|s| - 1][k];
      r
  }

  /** Number of leading whitespace characters `strip` removes. */
  function Lead(s: string): (n: nat)
    ensures n <= |s|
  {
    |s| - |TrimLeft(s)|
  }

  /** Python's `s.strip()`: the result is the infix of `s` starting after
      its leading whitespace, everything cut off on either side is
      whitespace, and the result neither starts nor ends with whitespace. */
  function Strip(s: string): (r: string)
    ensures Lead(s) + |r| <= |s| && r == s[Lead(s)..Lead(s) + |r|]
    ensures forall k :: 0 <= k < Lead(s) ==> IsSpace(s[k])
    ensures forall k :: Lead(s) + |r| <= k < |s| ==> IsSpace(s[k])
    ensures r == [] || (!IsSpace(r[0]) && !IsSpace(r[|r| - 1]))
  {
    var l := TrimLeft(s);
    var r := TrimRight(l);
    assert l == s[Lead(s)..];
    assert forall k :: Lead(s) + |r| <= k < |s| ==> s[k] == l[k - Lead(s)];
    r
  }

  /** An ASCII decimal digit. */
  predicate IsAsciiDigit(c: char) {
    '0' <= c <= '9'
  }

  /** Python's `s.isdigit()`, restricted to ASCII digits: false on the
      empty string, otherwise true exactly when every character is a digit. */
  predicate IsDigits(s: string) {
    |s| > 0 && forall k :: 0 <= k < |s| ==> IsAsciiDigit(s[k])
  }

  /** ASCII case folding of one character; every other character is kept. */
  function LowerChar(c: char): char {
    if 'A' <= c <= 'Z' then (c as int + 32) as char else c
  }

  /** Python's `s.lower()` on ASCII letters. */
  function Lower(s: string): (r: string)
    ensures |r| == |s|
    ensures forall k :: 0 <= k < |s| ==> r[k] == LowerChar(s[k])
  {
    if s == [] then [] else [LowerChar(s[0])] + Lower(s[1..])
  }
}
