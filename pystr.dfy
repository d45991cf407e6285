/**
 * The two Python string operations the core relies on: str.strip() with no
 * argument, and s.split(sep)[0]. Characters are Unicode scalar values, as
 * Python 3 strings are sequences of code points.
 */
module PyStr {
  /** Python 3 str.isspace() for a single code point. */
  predicate IsSpace(c: char)
  {
    c == ' ' || ('\t' <= c <= '\r') || ('\U{1C}' <= c <= '\U{1F}')
    || c == '\U{85}' || c == '\U{A0}' || c == '\U{1680}'
    || ('\U{2000}' <= c <= '\U{200A}') || c == '\U{2028}' || c == '\U{2029}'
    || c == '\U{202F}' || c == '\U{205F}' || c == '\U{3000}'
  }

  predicate AllSpace(s: string)
  {
    forall i :: 0 <= i < |s| ==> IsSpace(s[i])
  }

  /** str.lstrip(): drop the leading whitespace. */
  function LStrip(s: string): (r: string)
    ensures |r| <= |s| && r == s[|s| - |r|..]
    ensures AllSpace(s[..|s| - |r|])
    ensures r == [] || !IsSpace(r[0])
  {
    if s == [] || !IsSpace(s[0]) then s else LStrip(s[1..])
  }

  /** str.rstrip(): drop the trailing whitespace. */
  function RStrip(s: string): (r: string)
    ensures |r| <= |s| && r == s[..|r|]
    ensures AllSpace(s[|r|..])
    ensures r == [] || !IsSpace(r[|r| - 1])
  {
    if s == [] || !IsSpace(s[|s| - 1]) then s else RStrip(s[..|s| - 1])
  }

  /** str.strip(): the text between the leading and the trailing whitespace. */
  function Strip(s: string): (r: string)
    ensures r == [] || (!IsSpace(r[0]) && !IsSpace(r[|r| - 1]))
  {
    RStrip(LStrip(s))
  }

  /** Stripping removes only whitespace: s is whitespace, then r, then whitespace. */
  lemma StripIsInfix(s: string)
    ensures var r := Strip(s);
      exists k :: 0 <= k && k + |r| <= |s| && s[k..k + |r|] == r
        && AllSpace(s[..k]) && AllSpace(s[k + |r|..])
  {
    var l := LStrip(s);
    var r := RStrip(l);
    var k := |s| - |l|;
    assert s[k..] == l;
    assert s[k..k + |r|] == l[..|r|] == r;
    assert s[k + |r|..] == l[|r|..];
  }

  /** A text strips to the empty string exactly when it is all whitespace. */
  lemma StripEmptyIffBlank(s: string)
    ensures Strip(s) == [] <==> AllSpace(s)
  {
    var l := LStrip(s);
    var k := |s| - |l|;
    var r := RStrip(l);
    assert s[k..] == l;
    if r == [] {
      forall i | 0 <= i < |s| ensures IsSpace(s[i]) {
        if i < k {
          assert s[i] == s[..k][i];
        } else {
          assert s[i] == l[i - k] == l[0..][i - k];
        }
      }
    } else {
      assert r[0] == l[0] == s[k];
    }
  }

  /** s.split(sep)[0]: everything before the first occurrence of sep. */
  function SplitFirst(s: string, sep: char): (r: string)
    ensures |r| <= |s| && r == s[..|r|]
    ensures sep !in r
    ensures |r| < |s| ==> s[|r|] == sep
  {
    if s == [] || s[0] == sep then [] else [s[0]] + SplitFirst(s[1..], sep)
  }
}
