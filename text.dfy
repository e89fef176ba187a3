/**
 * Searches over strings shared by the two hand-written regular-expression matchers.
 * In Python's `re`, `.` matches any character except a newline, so a greedy `.*`
 * run stops at the first newline.
 */
module Text {
  import opened JsonValues

  predicate NoNewline(s: string, lo: nat, hi: nat)
    requires lo <= hi <= |s|
  {
    forall k | lo <= k < hi :: s[k] != '\n'
  }

  /** Index of the first newline at or after i, or |s|: the furthest a `.*` run from i can reach. */
  function LineEnd(s: string, i: nat): (e: nat)
    requires i <= |s|
    ensures i <= e <= |s|
    ensures NoNewline(s, i, e)
    ensures e < |s| ==> s[e] == '\n'
    decreases |s| - i
  {
    if i == |s| || s[i] == '\n' then i else LineEnd(s, i + 1)
  }

  /** The line from lo runs at least up to hi when lo..hi holds no newline. */
  lemma {:induction false} LineEndPast(s: string, lo: nat, hi: nat)
    requires lo <= hi <= |s| && NoNewline(s, lo, hi)
    ensures hi <= LineEnd(s, lo)
    decreases hi - lo
  {
    if lo < hi {
      LineEndPast(s, lo + 1, hi);
    }
  }

  /** The greatest index in [lo, hi) that holds c: where a greedy `.*` followed by c stops. */
  function LastIndex(s: string, c: char, lo: nat, hi: nat): (r: Option<nat>)
    requires lo <= hi <= |s|
    ensures r.Some? ==> lo <= r.value < hi && s[r.value] == c
    ensures r.Some? ==> forall k | r.value < k < hi :: s[k] != c
    ensures r.None? ==> forall k | lo <= k < hi :: s[k] != c
    decreases hi - lo
  {
    if hi == lo then None
    else if s[hi - 1] == c then Some(hi - 1)
    else LastIndex(s, c, lo, hi - 1)
  }

  /** t occurs in s at position i. */
  predicate OccursAt(t: string, s: string, i: nat) {
    i + |t| <= |s| && s[i..i + |t|] == t
  }

  predicate Occurs(t: string, s: string) {
    exists i: nat | i <= |s| :: OccursAt(t, s, i)
  }

  lemma OccursInTail(t: string, s: string)
    requires s != [] && Occurs(t, s[1..])
    ensures Occurs(t, s)
  {
    var i: nat :| i <= |s[1..]| && OccursAt(t, s[1..], i);
    assert s[i + 1..i + 1 + |t|] == s[1..][i..i + |t|];
    assert OccursAt(t, s, i + 1);
  }
}
