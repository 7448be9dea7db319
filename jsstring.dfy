/** JavaScript's String.prototype.trim over Dafny strings.

    ECMAScript's trim removes, from both ends, every code point of the
    WhiteSpace and LineTerminator productions: TAB, VT, FF, SPACE, NBSP,
    ZWNBSP (the byte-order mark), the other Unicode "Zs" space separators,
    LF, CR, LINE SEPARATOR and PARAGRAPH SEPARATOR. */
module JsString {

  /** The code points String.prototype.trim strips. */
  predicate IsWhitespace(c: char) {
    ('\t' <= c <= '\r')                    // TAB, LF, VT, FF, CR
    || c == ' ' || c == '\U{00A0}' || c == '\U{1680}'
    || ('\U{2000}' <= c <= '\U{200A}')     // EN QUAD .. HAIR SPACE
    || c == '\U{2028}' || c == '\U{2029}'  // LINE and PARAGRAPH SEPARATOR
    || c == '\U{202F}' || c == '\U{205F}' || c == '\U{3000}'
    || c == '\U{FEFF}'                     // ZWNBSP
  }

  predicate AllWhitespace(s: string) {
    forall k :: 0 <= k < |s| ==> IsWhitespace(s[k])
  }

  /** Neither starts nor ends with whitespace. */
  predicate Trimmed(s: string) {
    s != [] ==> !IsWhitespace(s[0]) && !IsWhitespace(s[|s| - 1])
  }

  /** The first position at or after i that does not hold whitespace (|s| if
      there is none): where the trimmed string starts. */
  function TrimStartIndex(s: string, i: nat): (j: nat)
    requires i <= |s|
    ensures i <= j <= |s|
    ensures forall k :: i <= k < j ==> IsWhitespace(s[k])
    ensures j < |s| ==> !IsWhitespace(s[j])
    decreases |s| - i
  {
    if i < |s| && IsWhitespace(s[i]) then TrimStartIndex(s, i + 1) else i
  }

  /** The end of s[lo..j] once its trailing whitespace is dropped: where the
      trimmed string ends. */
  function TrimEndIndex(s: string, lo: nat, j: nat): (e: nat)
    requires lo <= j <= |s|
    ensures lo <= e <= j
    ensures forall k :: e <= k < j ==> IsWhitespace(s[k])
    ensures lo < e ==> !IsWhitespace(s[e - 1])
  {
    if lo < j && IsWhitespace(s[j - 1]) then TrimEndIndex(s, lo, j - 1) else j
  }

  /** String.prototype.trim: s with the whitespace at both ends removed. */
  function Trim(s: string): (r: string)
    ensures |r| <= |s| && Trimmed(r)
  {
    var i := TrimStartIndex(s, 0);
    s[i..TrimEndIndex(s, i, |s|)]
  }

  /** The trim of s is a slice s[i..i + |r|] of it, and everything cut away
      on either side is whitespace. */
  lemma TrimSlice(s: string)
    ensures var i, r := TrimStartIndex(s, 0), Trim(s);
      i + |r| <= |s| && r == s[i..i + |r|] &&
      (forall k :: 0 <= k < i ==> IsWhitespace(s[k])) &&
      (forall k :: i + |r| <= k < |s| ==> IsWhitespace(s[k]))
  {
  }

  /** The blank test `!s.trim()`: a string trims to "" exactly when every
      character of it is whitespace. */
  lemma TrimEmptyIff(s: string)
    ensures Trim(s) == [] <==> AllWhitespace(s)
  {
  }

  /** A string is its own trim exactly when it neither starts nor ends with
      whitespace. */
  lemma TrimFixedIff(s: string)
    ensures Trim(s) == s <==> Trimmed(s)
  {
  }

  /** Trim removes exactly the surrounding whitespace: wrapping a string that
      neither starts nor ends with whitespace in whitespace on both sides and
      trimming gives that string back. */
  lemma TrimSurrounded(pre: string, core: string, post: string)
    requires AllWhitespace(pre) && AllWhitespace(post) && Trimmed(core)
    ensures Trim(pre + core + post) == core
  {
    var s := pre + core + post;
    if core == [] {
      assert s == pre + post;
      assert AllWhitespace(s) by {
        forall k | 0 <= k < |s| ensures IsWhitespace(s[k]) {
          if k < |pre| { assert s[k] == pre[k]; } else { assert s[k] == post[k - |pre|]; }
        }
      }
      TrimEmptyIff(s);
    } else {
      var i, e := |pre|, |pre| + |core|;
      assert s[..i] == pre && s[i..e] == core && s[e..] == post;
      assert s[i] == core[0] && s[e - 1] == core[|core| - 1];
      assert TrimStartIndex(s, 0) == i;
      assert TrimEndIndex(s, i, |s|) == e;
    }
  }

  /** Trimming twice is trimming once. */
  lemma TrimIdempotent(s: string)
    ensures Trim(Trim(s)) == Trim(s)
  {
  }
}
