/**
 * Substring search over strings: Python's `str.find` (lowest index of an
 * occurrence, or "not found"), and the facts about occurrences that the
 * workflow patch relies on.
 */
module Text {
  import opened Wrappers

  /** `sub` occurs in `s` starting at index `i`. */
  predicate OccursAt(s: string, sub: string, i: int)
  {
    0 <= i && i + |sub| <= |s| && s[i..i + |sub|] == sub
  }

  predicate Contains(s: string, sub: string)
  {
    exists i :: 0 <= i <= |s| && OccursAt(s, sub, i)
  }

  /** `i` is the lowest index at which `sub` occurs in `s`. */
  predicate IsFirst(s: string, sub: string, i: int)
  {
    OccursAt(s, sub, i) && forall j :: 0 <= j < i ==> !OccursAt(s, sub, j)
  }

  /** `str.find` restricted to candidate positions `k` and above. */
  function FindFrom(s: string, sub: string, k: nat): (r: Option<nat>)
    ensures r.Some? ==> k <= r.value && OccursAt(s, sub, r.value)
    ensures r.Some? ==> forall j :: k <= j < r.value ==> !OccursAt(s, sub, j)
    ensures r.None? ==> forall j :: k <= j ==> !OccursAt(s, sub, j)
    decreases |s| - k
  {
    if k + |sub| > |s| then None
    else if s[k..k + |sub|] == sub then Some(k)
    else FindFrom(s, sub, k + 1)
  }

  /** Python's `s.find(sub)`: the lowest occurrence, with `None` standing for -1. */
  function Find(s: string, sub: string): (r: Option<nat>)
    ensures r.Some? <==> Contains(s, sub)
    ensures r.Some? ==> IsFirst(s, sub, r.value)
  {
    FindFrom(s, sub, 0)
  }

  /** The lowest occurrence is unique, so `Find` is determined by it. */
  lemma FindIsFirst(s: string, sub: string, i: int)
    requires IsFirst(s, sub, i)
    ensures Find(s, sub) == Some(i)
  {
    assert Contains(s, sub);
  }

  /**
   * Two strings that agree on their first `n` characters have the same
   * first occurrence of `sub`, when that occurrence ends within the common part.
   */
  lemma FirstInCommonPrefix(s: string, t: string, sub: string, n: nat, i: nat)
    requires n <= |s| && n <= |t| && s[..n] == t[..n]
    requires IsFirst(s, sub, i) && i + |sub| <= n
    ensures IsFirst(t, sub, i)
  {
    forall x | 0 <= x < n ensures s[x] == t[x] {
      assert s[..n][x] == t[..n][x];
    }
    assert t[i..i + |sub|] == s[i..i + |sub|];
    forall j | 0 <= j < i ensures !OccursAt(t, sub, j) {
      assert t[j..j + |sub|] == s[j..j + |sub|];
      assert !OccursAt(s, sub, j);
    }
  }

  /** No line break is immediately followed by another: the text has no empty line. */
  predicate NoBlankLine(s: string)
  {
    forall k :: 0 <= k < |s| - 1 && s[k] == '\n' ==> s[k + 1] != '\n'
  }

  /**
   * In a text without empty lines, a marker that begins with two line breaks
   * cannot start before the last character of the text.
   */
  lemma NoDoubleBreakBefore(b: string, q: string, marker: string, j: int)
    requires NoBlankLine(b)
    requires |marker| >= 3 && marker[0] == '\n' && marker[1] == '\n' && marker[2] != '\n'
    requires |q| >= 2 ==> q[1] == '\n'
    requires 0 <= j < |b|
    ensures !OccursAt(b + q, marker, j)
  {
    var t := b + q;
    if j + |marker| <= |t| {
      var w := t[j..j + |marker|];
      if j + 1 < |b| {
        if b[j] == '\n' {
          assert w[1] == b[j + 1] != '\n';
        } else {
          assert w[0] == b[j];
        }
      } else {
        assert w[2] == q[1];
      }
    }
  }
}
