/** The code-fence cleaning of backend/server.js:70, `text.replace(/```json|```/g, "")`:
    a global replacement whose pattern tries "```json" before "```" at each position. */
module Fences {

  const JsonFence: string := "```json"
  const Fence: string := "```"

  /** A fence marker (three backticks) starts at index `i` of `s`. */
  predicate FenceAt(s: string, i: int)
  {
    0 <= i && i + 3 <= |s| && s[i] == '`' && s[i + 1] == '`' && s[i + 2] == '`'
  }

  /** The longer marker "```json" starts at index `i` of `s`. */
  predicate JsonFenceAt(s: string, i: int)
  {
    && FenceAt(s, i) && i + 7 <= |s|
    && s[i + 3] == 'j' && s[i + 4] == 's' && s[i + 5] == 'o' && s[i + 6] == 'n'
  }

  /** No three consecutive backticks anywhere in `s`. */
  predicate FenceFree(s: string)
  {
    forall i :: 0 <= i < |s| ==> !FenceAt(s, i)
  }

  predicate NoBacktick(s: string)
  {
    forall i :: 0 <= i < |s| ==> s[i] != '`'
  }

  /** `a` is obtained from `b` by deleting characters: every character of `a` occurs in `b`,
      in the same order. */
  predicate IsSubsequence(a: string, b: string)
    decreases |b|
  {
    if |b| == 0 then |a| == 0
    else (|a| > 0 && a[0] == b[0] && IsSubsequence(a[1..], b[1..])) || IsSubsequence(a, b[1..])
  }

  /** The global replacement scans left to right; where a match starts, "```json" is
      preferred to "```", the matched text is dropped and the scan resumes after it;
      where none starts, the character is kept and the scan moves on by one. */
  function StripFences(s: string): (r: string)
    ensures |r| <= |s|
    decreases |s|
  {
    if |s| == 0 then ""
    else if JsonFenceAt(s, 0) then StripFences(s[|JsonFence|..])
    else if FenceAt(s, 0) then StripFences(s[|Fence|..])
    else [s[0]] + StripFences(s[1..])
  }

  /** The character tests used by `StripFences` are exactly the tests "`s` starts with
      the marker". */
  lemma FencePrefix(s: string)
    ensures Fence <= s <==> FenceAt(s, 0)
    ensures JsonFence <= s <==> JsonFenceAt(s, 0)
  {
    if JsonFenceAt(s, 0) {
      assert s[..7] == JsonFence;
    }
    if FenceAt(s, 0) {
      assert s[..3] == Fence;
    }
  }

  /** Where no fence marker starts at the front, the first character is kept. */
  lemma StripKeepsHead(s: string)
    requires |s| > 0 && !FenceAt(s, 0)
    ensures StripFences(s) == [s[0]] + StripFences(s[1..])
  {
  }

  lemma {:induction false} SubsequenceOfSuffix(a: string, b: string, k: nat)
    requires k <= |b| && IsSubsequence(a, b[k..])
    ensures IsSubsequence(a, b)
    decreases k
  {
    if k > 0 {
      assert b[1..][k - 1..] == b[k..];
      SubsequenceOfSuffix(a, b[1..], k - 1);
    }
  }

  lemma {:induction false} EmptyIsSubsequence(b: string)
    ensures IsSubsequence("", b)
    decreases |b|
  {
    if |b| > 0 {
      EmptyIsSubsequence(b[1..]);
    }
  }

  lemma {:induction false} SubsequenceDropFirst(a: string, b: string)
    requires |a| > 0 && IsSubsequence(a, b)
    ensures IsSubsequence(a[1..], b)
    decreases |b|
  {
    if a[0] == b[0] && IsSubsequence(a[1..], b[1..]) {
    } else {
      SubsequenceDropFirst(a, b[1..]);
    }
  }

  lemma {:induction false} SubsequenceDropLast(a: string, b: string)
    requires |a| > 0 && IsSubsequence(a, b)
    ensures IsSubsequence(a[..|a| - 1], b)
    decreases |b|
  {
    if a[0] == b[0] && IsSubsequence(a[1..], b[1..]) {
      if |a| == 1 {
        EmptyIsSubsequence(b);
      } else {
        SubsequenceDropLast(a[1..], b[1..]);
        assert a[1..][..|a| - 2] == a[..|a| - 1][1..];
      }
    } else {
      SubsequenceDropLast(a, b[1..]);
    }
  }

  /** Any slice of a subsequence of `b` is again a subsequence of `b`. */
  lemma {:induction false} SubsequenceSlice(a: string, b: string, i: nat, j: nat)
    requires i <= j <= |a| && IsSubsequence(a, b)
    ensures IsSubsequence(a[i..j], b)
    decreases i + |a| - j
  {
    if 0 < i {
      SubsequenceDropFirst(a, b);
      assert a[1..][i - 1..j - 1] == a[i..j];
      SubsequenceSlice(a[1..], b, i - 1, j - 1);
    } else if j < |a| {
      SubsequenceDropLast(a, b);
      assert a[..|a| - 1][i..j] == a[i..j];
      SubsequenceSlice(a[..|a| - 1], b, i, j);
    } else {
      assert a[i..j] == a;
    }
  }

  /** A slice of a text without fence markers has none either. */
  lemma SliceFenceFree(s: string, i: nat, j: nat)
    requires i <= j <= |s| && FenceFree(s)
    ensures FenceFree(s[i..j])
  {
    forall k | 0 <= k < j - i ensures !FenceAt(s[i..j], k) {
      assert !FenceAt(s, i + k);
    }
  }

  /** A character other than a backtick in front is kept. */
  lemma StripAfterChar(c: char, b: string)
    requires c != '`'
    ensures StripFences([c] + b) == [c] + StripFences(b)
  {
    var cb := [c] + b;
    assert cb[0] == c;
    StripKeepsHead(cb);
    assert cb[1..] == b;
  }

  /** Text without backticks in front of the rest passes through untouched: cleaning
      works on the rest only. */
  lemma {:induction false} StripAfterPlainText(a: string, b: string)
    requires NoBacktick(a)
    ensures StripFences(a + b) == a + StripFences(b)
    decreases |a|
  {
    if |a| > 0 {
      var rest := a[1..];
      assert NoBacktick(rest) by {
        forall k | 0 <= k < |rest| ensures rest[k] != '`' {
          assert rest[k] == a[k + 1];
        }
      }
      StripAfterPlainText(rest, b);
      StripAfterChar(a[0], rest + b);
      assert a == [a[0]] + rest;
      assert a + b == [a[0]] + (rest + b);
    } else {
      assert a + b == b;
    }
  }

  /** Cleaning only deletes: what is left is the input's characters in their order. */
  lemma {:induction false} StripIsSubsequence(s: string)
    ensures IsSubsequence(StripFences(s), s)
    decreases |s|
  {
    if |s| == 0 {
    } else if JsonFenceAt(s, 0) {
      StripIsSubsequence(s[|JsonFence|..]);
      SubsequenceOfSuffix(StripFences(s), s, |JsonFence|);
    } else if FenceAt(s, 0) {
      StripIsSubsequence(s[|Fence|..]);
      SubsequenceOfSuffix(StripFences(s), s, |Fence|);
    } else {
      StripIsSubsequence(s[1..]);
      var r := StripFences(s);
      assert r[1..] == StripFences(s[1..]);
    }
  }

  /** Text without any fence marker passes through unchanged. */
  lemma {:induction false} StripFenceFreeIdentity(s: string)
    requires FenceFree(s)
    ensures StripFences(s) == s
    decreases |s|
  {
    if |s| > 0 {
      assert !FenceAt(s, 0);
      StripKeepsHead(s);
      assert FenceFree(s[1..]) by {
        forall i ensures !FenceAt(s[1..], i) {
          assert !FenceAt(s, i + 1);
        }
      }
      StripFenceFreeIdentity(s[1..]);
    }
  }

  /** In particular, text with no backtick at all is left as it is. */
  lemma StripNoBacktickIdentity(s: string)
    requires NoBacktick(s)
    ensures StripFences(s) == s
  {
    assert FenceFree(s) by {
      forall i ensures !FenceAt(s, i) {
        if 0 <= i < |s| { assert s[i] != '`'; }
      }
    }
    StripFenceFreeIdentity(s);
  }

  /** Cleaning leaves no fence marker behind: the kept characters never line up into
      three backticks. */
  lemma {:induction false} StripLeavesNoFence(s: string)
    ensures FenceFree(StripFences(s))
    decreases |s|
  {
    if |s| == 0 {
    } else if JsonFenceAt(s, 0) {
      StripLeavesNoFence(s[|JsonFence|..]);
    } else if FenceAt(s, 0) {
      StripLeavesNoFence(s[|Fence|..]);
    } else {
      StripKeepsHead(s);
      var rest := StripFences(s[1..]);
      var r := StripFences(s);
      StripLeavesNoFence(s[1..]);
      // The kept first character cannot start a marker together with what follows.
      if s[0] != '`' || |s| == 1 {
      } else if s[1] != '`' {
        StripKeepsHead(s[1..]);
      } else {
        StripKeepsHead(s[1..]);
        if |s| > 2 {
          StripKeepsHead(s[2..]);
        }
      }
      assert !FenceAt(r, 0);
      forall i | 0 < i < |r| ensures !FenceAt(r, i) {
        assert !FenceAt(rest, i - 1);
      }
    }
  }

  /** Cleaning twice is cleaning once. */
  lemma StripIdempotent(s: string)
    ensures StripFences(StripFences(s)) == StripFences(s)
  {
    StripLeavesNoFence(s);
    StripFenceFreeIdentity(StripFences(s));
  }
}
