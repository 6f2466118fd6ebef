/** String helpers used by the request schemas and by the client-address lookup:
    JavaScript's `String.prototype.trim`. */
module Text {

  /** The characters `trim` removes: ECMAScript's WhiteSpace (tab, vertical tab, form feed,
      U+FEFF and the space separators, among them U+3000, the ideographic space) and its
      LineTerminator (line feed, carriage return, U+2028, U+2029). */
  predicate IsWhitespace(c: char) {
    || c == '\t' || c == '\U{000B}' || c == '\U{000C}' || c == '\U{FEFF}'
    || c == ' ' || c == '\U{00A0}' || c == '\U{1680}' || '\U{2000}' <= c <= '\U{200A}'
    || c == '\U{202F}' || c == '\U{205F}' || c == '\U{3000}'
    || c == '\n' || c == '\r' || c == '\U{2028}' || c == '\U{2029}'
  }

  /** Removes leading whitespace. */
  function TrimStart(s: string): (r: string)
    ensures |r| <= |s| && r == s[|s| - |r|..]
    ensures r == [] || !IsWhitespace(r[0])
    ensures forall i :: 0 <= i < |s| - |r| ==> IsWhitespace(s[i])
  {
    if s != [] && IsWhitespace(s[0]) then TrimStart(s[1..]) else s
  }

  /** Removes trailing whitespace. */
  function TrimEnd(s: string): (r: string)
    ensures |r| <= |s| && r == s[..|r|]
    ensures r == [] || !IsWhitespace(r[|r| - 1])
    ensures forall i :: |r| <= i < |s| ==> IsWhitespace(s[i])
  {
    if s != [] && IsWhitespace(s[|s| - 1]) then TrimEnd(s[..|s| - 1]) else s
  }

  /** `r` occurs in `s` at offset `i`. */
  predicate SegmentAt(s: string, i: int, r: string) {
    0 <= i <= |s| - |r| && s[i..i + |r|] == r
  }

  /** `r` occurs in `s` at offset `i`, and everything before and after it is whitespace. */
  predicate TrimmedAt(s: string, i: int, r: string) {
    && SegmentAt(s, i, r)
    && (forall k :: 0 <= k < i ==> IsWhitespace(s[k]))
    && (forall k :: i + |r| <= k < |s| ==> IsWhitespace(s[k]))
  }

  /** A piece of a prefix of `s` is a piece of `s`. */
  lemma SegmentOfPrefix(s: string, p: string, i: int, r: string)
    requires |p| <= |s| && p == s[..|p|] && SegmentAt(p, i, r)
    ensures SegmentAt(s, i, r)
  {
    assert s[i..i + |r|] == p[i..i + |r|];
  }

  /** A piece of `s` holds no character that `s` does not hold. */
  lemma SegmentAvoids(s: string, i: int, r: string, c: char)
    requires SegmentAt(s, i, r) && c !in s
    ensures c !in r
  {
    forall k | 0 <= k < |r| ensures r[k] != c {
      assert r[k] == s[i + k];
    }
  }

  /** `s.trim()`: removes whitespace at both ends and nothing else. The result is the input
      with a whitespace prefix and a whitespace suffix cut off, and neither of its ends is
      whitespace, so no longer such prefix or suffix exists. */
  function Trim(s: string): (r: string)
    ensures |r| <= |s|
    ensures r == [] || (!IsWhitespace(r[0]) && !IsWhitespace(r[|r| - 1]))
    ensures exists i :: TrimmedAt(s, i, r)
  {
    var t := TrimStart(s);
    var r := TrimEnd(t);
    TrimAt(s, t, r);
    r
  }

  /** Where the two halves of `Trim` cut: `t` is `s` after a whitespace prefix, and `r` is `t`
      before a whitespace suffix. */
  lemma TrimAt(s: string, t: string, r: string)
    requires |t| <= |s| && t == s[|s| - |t|..]
    requires forall k :: 0 <= k < |s| - |t| ==> IsWhitespace(s[k])
    requires |r| <= |t| && r == t[..|r|]
    requires forall k :: |r| <= k < |t| ==> IsWhitespace(t[k])
    ensures TrimmedAt(s, |s| - |t|, r)
  {
    var i := |s| - |t|;
    assert s[i..i + |r|] == s[i..][..|r|];
    forall k | i + |r| <= k < |s| ensures IsWhitespace(s[k]) {
      assert s[k] == t[k - i];
    }
  }

  /** A string that is all whitespace trims to the empty string, and only such a string does. */
  lemma TrimEmptyIff(s: string)
    ensures Trim(s) == [] <==> forall i :: 0 <= i < |s| ==> IsWhitespace(s[i])
  {
  }

  /** Trimming twice is the same as trimming once. */
  lemma TrimIdempotent(s: string)
    ensures Trim(Trim(s)) == Trim(s)
  {
    var r := Trim(s);
    assert TrimStart(r) == r;
    assert TrimEnd(r) == r;
  }

  /** A string with no whitespace at its ends is left as it is. */
  lemma TrimKeepsInner(s: string)
    requires s == [] || (!IsWhitespace(s[0]) && !IsWhitespace(s[|s| - 1]))
    ensures Trim(s) == s
  {
  }

  /** One space on each side of a text with no whitespace at its ends is trimmed away. */
  lemma TrimSpaced(core: string)
    requires core != [] && !IsWhitespace(core[0]) && !IsWhitespace(core[|core| - 1])
    ensures Trim(" " + core + " ") == core
  {
    var s := " " + core + " ";
    assert s[1..] == core + " ";
    assert TrimStart(s) == core + " ";
    assert (core + " ")[..|core|] == core;
    assert TrimEnd(core + " ") == core;
  }
}
