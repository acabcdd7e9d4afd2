/**
 * The two string built-ins the extension relies on: `String.prototype.startsWith`
 * (a literal prefix test) and `String.prototype.trim`.
 */
module Text {

  /** `s.startsWith(prefix)`: a character-for-character prefix test, true for the empty prefix. */
  predicate StartsWith(s: string, prefix: string) {
    prefix <= s
  }

  /**
   * The characters `trim` strips: the ECMAScript WhiteSpace characters (tab, vertical tab,
   * form feed, space, no-break space, byte order mark and the Unicode space separators) and
   * the LineTerminator characters (line feed, carriage return, line and paragraph separator).
   */
  predicate IsWhitespace(c: char) {
    || c == '\t' || c == '\U{0B}' || c == '\U{0C}' || c == ' ' || c == '\U{A0}' || c == '\U{FEFF}'
    || c == '\U{1680}' || ('\U{2000}' <= c <= '\U{200A}') || c == '\U{202F}' || c == '\U{205F}' || c == '\U{3000}'
    || c == '\n' || c == '\r' || c == '\U{2028}' || c == '\U{2029}'
  }

  /** Every character of `s` is whitespace (vacuously so for the empty string). */
  predicate AllWhitespace(s: string) {
    forall k :: 0 <= k < |s| ==> IsWhitespace(s[k])
  }

  /** `s` with its leading whitespace removed. */
  function TrimStart(s: string): (r: string)
    ensures |r| <= |s| && r == s[|s| - |r|..]
    ensures forall k :: 0 <= k < |s| - |r| ==> IsWhitespace(s[k])
    ensures r != [] ==> !IsWhitespace(r[0])
  {
    if s != [] && IsWhitespace(s[0]) then TrimStart(s[1..]) else s
  }

  /** `s` with its trailing whitespace removed. */
  function TrimEnd(s: string): (r: string)
    ensures |r| <= |s| && r == s[..|r|]
    ensures forall k :: |r| <= k < |s| ==> IsWhitespace(s[k])
    ensures r != [] ==> !IsWhitespace(r[|r| - 1])
  {
    if s != [] && IsWhitespace(s[|s| - 1]) then TrimEnd(s[..|s| - 1]) else s
  }

  /**
   * A prefix `r` of the suffix `t` of `s` starting at `i` is the slice of `s` from `i`, and
   * whatever `t` holds after `r` is what `s` holds after that slice.
   */
  lemma PrefixOfSuffix<T>(s: seq<T>, i: int, t: seq<T>, r: seq<T>, p: T -> bool)
    requires 0 <= i <= |s| && t == s[i..] && |r| <= |t| && r == t[..|r|]
    requires forall k :: |r| <= k < |t| ==> p(t[k])
    ensures r == s[i..i + |r|]
    ensures forall k :: i + |r| <= k < |s| ==> p(s[k])
  {
    forall k | i + |r| <= k < |s|
      ensures p(s[k])
    {
      assert s[k] == t[k - i];
    }
  }

  /** `r` is `s` with the whitespace run `s[..i]` and the whitespace run `s[j..]` removed. */
  predicate StripsEnds(s: string, r: string, i: int, j: int) {
    && 0 <= i <= j <= |s| && r == s[i..j]
    && (forall k :: 0 <= k < i ==> IsWhitespace(s[k]))
    && (forall k :: j <= k < |s| ==> IsWhitespace(s[k]))
  }

  /**
   * `s.trim()`: empty exactly when `s` is all whitespace; otherwise neither end is whitespace.
   * `TrimmedSlice` shows the result is `s` with its whitespace ends removed.
   */
  function Trim(s: string): (r: string)
    ensures |r| <= |s|
    ensures r == [] <==> AllWhitespace(s)
    ensures r != [] ==> !IsWhitespace(r[0]) && !IsWhitespace(r[|r| - 1])
    ensures s != [] && !IsWhitespace(s[0]) && !IsWhitespace(s[|s| - 1]) ==> r == s
  {
    var t := TrimStart(s);
    assert t != [] ==> t[0] == s[|s| - |t|];
    TrimEnd(t)
  }

  /** Trimming removes only a run of leading and a run of trailing whitespace. */
  lemma TrimmedSlice(s: string)
    ensures exists i, j :: StripsEnds(s, Trim(s), i, j)
  {
    var t := TrimStart(s);
    var r := TrimEnd(t);
    var i := |s| - |t|;
    assert Trim(s) == r;
    PrefixOfSuffix(s, i, t, r, IsWhitespace);
    assert StripsEnds(s, r, i, i + |r|);
  }

  /** Trimming an already trimmed string changes nothing. */
  lemma TrimIdempotent(s: string)
    ensures Trim(Trim(s)) == Trim(s)
  {
  }
}
