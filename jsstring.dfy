/**
 * The part of JavaScript's `String.prototype.trim` the page relies on:
 * removing white space and line terminators from both ends of a string.
 * Characters are Unicode scalar values; no surrogate code unit is white
 * space, so this agrees with trimming the UTF-16 form.
 */
module JsString {

  /** ECMAScript WhiteSpace (TAB, VT, FF, SP, NBSP, ZWNBSP, category Zs)
      and LineTerminator (LF, CR, LS, PS). */
  predicate IsWhitespace(c: char)
    ensures c == ' ' || c == '\t' || c == '\n' || c == '\r' ==> IsWhitespace(c)
    ensures 0x21 <= c as int <= 0x7E ==> !IsWhitespace(c)
  {
    var n := c as int;
    n == 0x09 || n == 0x0A || n == 0x0B || n == 0x0C || n == 0x0D || n == 0x20 ||
    n == 0xA0 || n == 0x1680 || (0x2000 <= n <= 0x200A) ||
    n == 0x2028 || n == 0x2029 || n == 0x202F || n == 0x205F ||
    n == 0x3000 || n == 0xFEFF
  }

  /** Every character of `s` is white space (vacuously true of ""). */
  predicate IsBlank(s: string) {
    forall i :: 0 <= i < |s| ==> IsWhitespace(s[i])
  }

  /** `s` without its leading white space: a suffix of `s` that starts with
      a non-white-space character, and everything dropped is white space. */
  function TrimStart(s: string): (r: string)
    ensures |r| <= |s| && r == s[|s| - |r|..]
    ensures r == [] || !IsWhitespace(r[0])
    ensures IsBlank(s[..|s| - |r|])
  {
    if s != [] && IsWhitespace(s[0]) then TrimStart(s[1..]) else s
  }

  /** `s` without its trailing white space: a prefix of `s` that ends with
      a non-white-space character, and everything dropped is white space. */
  function TrimEnd(s: string): (r: string)
    ensures |r| <= |s| && r == s[..|r|]
    ensures r == [] || !IsWhitespace(r[|r| - 1])
    ensures IsBlank(s[|r|..])
  {
    if s != [] && IsWhitespace(s[|s| - 1]) then TrimEnd(s[..|s| - 1]) else s
  }

  /** `String.prototype.trim`: the middle of `s` left after removing the
      white space at both ends. `TrimKeepsMiddle` and `TrimEmptyIffBlank`
      pin down which middle it is. */
  function Trim(s: string): (r: string)
    ensures |r| <= |s|
    ensures r != [] ==> !IsWhitespace(r[0]) && !IsWhitespace(r[|r| - 1])
  {
    TrimEnd(TrimStart(s))
  }

  /** The trimmed string is the slice of `s` that starts where `TrimStart`
      stops, with only white space before and after it: trimming keeps the
      middle of the string intact. */
  lemma TrimKeepsMiddle(s: string)
    ensures exists i ::
      && 0 <= i <= |s| - |Trim(s)|
      && Trim(s) == s[i..i + |Trim(s)|]
      && IsBlank(s[..i])
      && IsBlank(s[i + |Trim(s)|..])
  {
    SliceBetweenBlanks(s, TrimStart(s), Trim(s));
  }

  /** A suffix `t` of `s` after blank characters, and a prefix `r` of `t`
      before blank characters, is a slice of `s` between blank parts. */
  lemma SliceBetweenBlanks(s: string, t: string, r: string)
    requires |t| <= |s| && t == s[|s| - |t|..] && IsBlank(s[..|s| - |t|])
    requires |r| <= |t| && r == t[..|r|] && IsBlank(t[|r|..])
    ensures var i := |s| - |t|;
      && i + |r| <= |s|
      && r == s[i..i + |r|]
      && IsBlank(s[..i])
      && IsBlank(s[i + |r|..])
  {
    var i := |s| - |t|;
    assert t[..|r|] == s[i..i + |r|];
    assert t[|r|..] == s[i + |r|..];
  }

  /** `!s.trim()` holds exactly when `s` consists of white space only;
      so a string with one visible character anywhere trims to non-empty. */
  lemma TrimEmptyIffBlank(s: string)
    ensures Trim(s) == [] <==> IsBlank(s)
  {
    var t := TrimStart(s);
    var k := |s| - |t|;
    var r := TrimEnd(t);
    assert s[k..] == t;
    if r == [] {
      assert t[|r|..] == t;
      assert t == [];
      assert s[..k] == s;
    } else {
      assert r == t[..|r|];
      assert r[0] == t[0] == s[k];
    }
  }
}
