/** The fallback extraction of backend/server.js:80, `text.match(/\{[\s\S]*\}/)`: the
    leftmost match of "an opening brace, then anything, then a closing brace", with the
    middle part greedy, so the match runs from the first `{` to the last `}`. */
module BraceMatch {
  import opened Wrappers

  /** `s[i..j]` is a candidate match of the pattern: it starts with `{`, ends with `}`
      and the two braces are different characters. */
  ghost predicate SpanAt(s: string, i: int, j: int)
  {
    0 <= i && i + 2 <= j <= |s| && s[i] == '{' && s[j - 1] == '}'
  }

  /** The match a regular-expression search reports: no candidate starts further left,
      and among those starting at the same place, none reaches further right. */
  ghost predicate LeftmostGreedy(s: string, i: int, j: int)
  {
    && SpanAt(s, i, j)
    && forall i', j' :: SpanAt(s, i', j') ==> i < i' || (i == i' && j' <= j)
  }

  /** Index of the first occurrence of `c` in `s`. */
  function FirstIndex(s: string, c: char): (r: Option<nat>)
    ensures r.Some? ==> r.value < |s| && s[r.value] == c
    ensures r.Some? ==> forall k :: 0 <= k < r.value ==> s[k] != c
    ensures r.None? ==> forall k :: 0 <= k < |s| ==> s[k] != c
    decreases |s|
  {
    if |s| == 0 then None
    else if s[0] == c then Some(0)
    else match FirstIndex(s[1..], c)
      case None => None
      case Some(k) => Some(k + 1)
  }

  /** Index of the last occurrence of `c` in `s`. */
  function LastIndex(s: string, c: char): (r: Option<nat>)
    ensures r.Some? ==> r.value < |s| && s[r.value] == c
    ensures r.Some? ==> forall k :: r.value < k < |s| ==> s[k] != c
    ensures r.None? ==> forall k :: 0 <= k < |s| ==> s[k] != c
    decreases |s|
  {
    if |s| == 0 then None
    else if s[|s| - 1] == c then Some(|s| - 1)
    else LastIndex(s[..|s| - 1], c)
  }

  /** Bounds of the match: from the first `{` to just past the last `}`, provided that
      `}` lies after that `{`; otherwise there is no match at all. */
  function MatchBounds(s: string): (r: Option<(nat, nat)>)
    ensures r.Some? ==> LeftmostGreedy(s, r.value.0, r.value.1)
    ensures r.None? ==> forall i, j :: 0 <= i < j < |s| ==> !(s[i] == '{' && s[j] == '}')
  {
    match FirstIndex(s, '{')
    case None => None
    case Some(i) =>
      match LastIndex(s, '}')
      case None => None
      case Some(l) => if i < l then Some((i, l + 1)) else None
  }

  /** The matched text, `match[0]`, or `None` where the search returns `null`. */
  function BraceSpan(s: string): (r: Option<string>)
    ensures r.Some? <==> exists i, j :: 0 <= i < j < |s| && s[i] == '{' && s[j] == '}'
    ensures r.Some? ==> |r.value| >= 2 && r.value[0] == '{' && r.value[|r.value| - 1] == '}'
    ensures r.Some? ==> exists i, j :: LeftmostGreedy(s, i, j) && r.value == s[i..j]
  {
    match MatchBounds(s)
    case None => None
    case Some((i, j)) =>
      assert 0 <= i < j - 1 < |s| && s[i] == '{' && s[j - 1] == '}';
      Some(s[i..j])
  }

  /** The span is taken as it stands in `s`: it contains no `{` before its start and no
      `}` after its end, so a text holding several objects yields everything from the
      first one's opening brace to the last one's closing brace. */
  lemma SpanIsOutermost(s: string, i: nat, j: nat)
    requires MatchBounds(s) == Some((i, j))
    ensures BraceSpan(s) == Some(s[i..j])
    ensures forall k :: 0 <= k < i ==> s[k] != '{'
    ensures forall k :: j <= k < |s| ==> s[k] != '}'
  {
    forall k | 0 <= k < i ensures s[k] != '{' {
      assert s[k] == '{' ==> SpanAt(s, k, j);
    }
    forall k | j <= k < |s| ensures s[k] != '}' {
      assert s[k] == '}' ==> SpanAt(s, i, k + 1);
    }
  }
}
