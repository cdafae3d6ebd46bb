/** `String.prototype.trim` as applied at backend/server.js:70: removal of leading and
    trailing white space and line terminators, in the sense of the WhiteSpace and
    LineTerminator productions of the ECMAScript language specification. */
module JsTrim {

  /** WhiteSpace: TAB, VT, FF, SPACE, NO-BREAK SPACE, ZERO WIDTH NO-BREAK SPACE and every
      other "Space_Separator" (Zs) code point; LineTerminator: LF, CR, LS, PS. */
  predicate IsWhitespace(c: char)
  {
    || c == '\U{9}' || c == '\U{B}' || c == '\U{C}' || c == ' '
    || c == '\U{A0}' || c == '\U{FEFF}'
    || c == '\U{1680}' || ('\U{2000}' <= c <= '\U{200A}')
    || c == '\U{202F}' || c == '\U{205F}' || c == '\U{3000}'
    || c == '\n' || c == '\r' || c == '\U{2028}' || c == '\U{2029}'
  }

  /** Every character of `s` at an index in `[i, j)` is white space. */
  predicate WhitespaceBetween(s: string, i: int, j: int)
  {
    forall k :: i <= k < j && 0 <= k < |s| ==> IsWhitespace(s[k])
  }

  /** Index of the first character at or after `start` that is not white space, or `|s|`
      when there is none. */
  function FirstNonWhitespace(s: string, start: nat): (n: nat)
    requires start <= |s|
    ensures start <= n <= |s|
    ensures WhitespaceBetween(s, start, n)
    ensures n < |s| ==> !IsWhitespace(s[n])
    decreases |s| - start
  {
    if start < |s| && IsWhitespace(s[start]) then FirstNonWhitespace(s, start + 1) else start
  }

  /** Index just past the last character before `stop` that is not white space, but no
      lower than `start`. */
  function ContentEnd(s: string, start: nat, stop: nat): (n: nat)
    requires start <= stop <= |s|
    ensures start <= n <= stop
    ensures WhitespaceBetween(s, n, stop)
    ensures start < n ==> !IsWhitespace(s[n - 1])
    decreases stop
  {
    if start < stop && IsWhitespace(s[stop - 1]) then ContentEnd(s, start, stop - 1) else stop
  }

  /** Leading white space, then trailing white space, is dropped: the result neither
      starts nor ends with white space (`TrimSlice` says where it sits in `s`). */
  function Trim(s: string): (r: string)
    ensures |r| <= |s|
    ensures |r| > 0 ==> !IsWhitespace(r[0]) && !IsWhitespace(r[|r| - 1])
  {
    var i := FirstNonWhitespace(s, 0);
    s[i..ContentEnd(s, i, |s|)]
  }

  /** The trimmed text is the slice of `s` between its leading and its trailing white
      space: only white space lies before it and after it. */
  lemma TrimSlice(s: string) returns (i: nat)
    ensures i + |Trim(s)| <= |s| && Trim(s) == s[i..i + |Trim(s)|]
    ensures WhitespaceBetween(s, 0, i) && WhitespaceBetween(s, i + |Trim(s)|, |s|)
  {
    i := FirstNonWhitespace(s, 0);
  }

  /** The slice characterisation pins the result down: any slice of `s` that is surrounded
      only by white space and has no white space at either end is `Trim(s)`. */
  lemma TrimUnique(s: string, i: nat, j: nat)
    requires i <= j <= |s|
    requires WhitespaceBetween(s, 0, i) && WhitespaceBetween(s, j, |s|)
    requires i < j ==> !IsWhitespace(s[i]) && !IsWhitespace(s[j - 1])
    ensures Trim(s) == s[i..j]
  {
    var n := FirstNonWhitespace(s, 0);
    if i < j {
      assert n == i;
      assert ContentEnd(s, i, |s|) == j;
    } else {
      assert n == |s|;
    }
  }

  /** Trimming twice is trimming once. */
  lemma TrimIdempotent(s: string)
    ensures Trim(Trim(s)) == Trim(s)
  {
    var r := Trim(s);
    TrimUnique(r, 0, |r|);
  }
}
