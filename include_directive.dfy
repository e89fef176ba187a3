/**
 * The include directive matcher of `_sub_include`: `re.search` with the fixed
 * pattern `(\$include <(.*\.json)(#/(.*))?>)`. Both `.*` runs are greedy and stop at
 * a newline, so the path is the LONGEST run ending in `.json` after which either a
 * `#/pointer>` or a `>` follows on the same line, and the pointer reaches the LAST `>`
 * of that line.
 */
module IncludeDirective {
  import opened JsonValues
  import opened Text

  /** One match: group(1) is text, group(2) is path, group(4) is pointer (None when group 3 did not take part). */
  datatype Directive = Directive(text: string, path: string, pointer: Option<string>)

  const Keyword: string := "$include <"

  predicate EndsWithJson(p: string) {
    |p| >= 5 && p[|p| - 5..] == ".json"
  }

  /** A `.json` ends just before index p of s. */
  predicate JsonEndAt(s: string, p: nat) {
    5 <= p <= |s| && s[p - 5..p] == ".json"
  }

  /** How a directive with this path and pointer is written. */
  function Spelling(path: string, pointer: Option<string>): string {
    Keyword + path + (match pointer case Some(k) => "#/" + k case None => "") + ">"
  }

  /** What every match is: a well-spelt directive on one line, with a path ending in `.json`. */
  predicate WellFormed(d: Directive) {
    && d.text == Spelling(d.path, d.pointer)
    && EndsWithJson(d.path)
    && '\n' !in d.text
  }

  /** The match anchored at s[0], if there is one. */
  function MatchAt(s: string): (r: Option<Directive>)
    ensures r.Some? ==> WellFormed(r.value) && OccursAt(r.value.text, s, 0)
  {
    if |s| >= 10 && s[..10] == Keyword then
      var e := LineEnd(s, 10);
      TryEnd(s, e, e)
    else
      None
  }

  /**
   * Backtracking over where the path ends: p is the candidate end of group 2,
   * tried from the end of the line downwards; at each candidate the optional
   * pointer group is tried before the bare `>`.
   */
  function TryEnd(s: string, e: nat, p: nat): (r: Option<Directive>)
    requires 10 <= e <= |s| && s[..10] == Keyword && NoNewline(s, 10, e) && p <= e
    ensures r.Some? ==> WellFormed(r.value) && OccursAt(r.value.text, s, 0)
    decreases p
  {
    if p < 15 then None
    else if !JsonEndAt(s, p) then TryEnd(s, e, p - 1)
    else
      var close := if p + 2 <= e && s[p..p + 2] == "#/" then LastIndex(s, '>', p + 2, e) else None;
      if close.Some? then
        var q := close.value;
        PointerMatchOk(s, e, p, q);
        Some(Directive(s[..q + 1], s[10..p], Some(s[p + 2..q])))
      else if p < e && s[p] == '>' then
        PlainMatchOk(s, e, p);
        Some(Directive(s[..p + 1], s[10..p], None))
      else
        TryEnd(s, e, p - 1)
  }

  lemma PointerMatchOk(s: string, e: nat, p: nat, q: nat)
    requires 10 <= e <= |s| && s[..10] == Keyword && NoNewline(s, 10, e)
    requires 15 <= p && JsonEndAt(s, p) && p + 2 <= q < e
    requires s[p..p + 2] == "#/" && s[q] == '>'
    ensures var d := Directive(s[..q + 1], s[10..p], Some(s[p + 2..q]));
            WellFormed(d) && OccursAt(d.text, s, 0)
  {
    var path, key := s[10..p], s[p + 2..q];
    var d := Directive(s[..q + 1], path, Some(key));
    assert s[..p] == Keyword + path;
    assert s[p..q + 1] == ("#/" + key) + [s[q]];
    assert s[..q + 1] == s[..p] + s[p..q + 1];
    assert s[10..p][|s[10..p]| - 5..] == s[p - 5..p];
    DirectiveOk(s, e, d);
  }

  lemma PlainMatchOk(s: string, e: nat, p: nat)
    requires 10 <= e <= |s| && s[..10] == Keyword && NoNewline(s, 10, e)
    requires 15 <= p < e && JsonEndAt(s, p) && s[p] == '>'
    ensures var d := Directive(s[..p + 1], s[10..p], None);
            WellFormed(d) && OccursAt(d.text, s, 0)
  {
    var d := Directive(s[..p + 1], s[10..p], None);
    assert s[..p + 1] == s[..10] + s[10..p] + [s[p]];
    assert s[10..p][|s[10..p]| - 5..] == s[p - 5..p];
    DirectiveOk(s, e, d);
  }

  lemma DirectiveOk(s: string, e: nat, d: Directive)
    requires 10 <= e <= |s| && NoNewline(s, 10, e) && s[..10] == Keyword
    requires d.text == Spelling(d.path, d.pointer) && EndsWithJson(d.path)
    requires |d.text| <= e && d.text == s[..|d.text|]
    ensures WellFormed(d) && OccursAt(d.text, s, 0)
  {
    forall k | 0 <= k < |d.text| ensures d.text[k] != '\n' {
      if k >= 10 { assert d.text[k] == s[k]; } else { assert d.text[k] == Keyword[k]; }
    }
  }

  /** `re.search(pattern, data)`: the match at the leftmost position that has one. */
  function Find(s: string): (r: Option<Directive>)
    ensures r.Some? ==> WellFormed(r.value) && Occurs(r.value.text, s)
    decreases |s|
  {
    if s == [] then None
    else
      match MatchAt(s)
      case Some(d) => Some(d)
      case None =>
        var r := Find(s[1..]);
        assert r.Some? ==> Occurs(r.value.text, s) by {
          if r.Some? { OccursInTail(r.value.text, s); }
        }
        r
  }

  // ---- Properties of the matcher ----

  /** A string in which `$include <` does not occur holds no directive. */
  lemma NoKeywordNoDirective(s: string)
    requires !Occurs(Keyword, s)
    ensures Find(s) == None
  {
    FoundKeyword(s);
  }

  /** Every directive found begins with `$include <`, so the keyword occurs. */
  lemma FoundKeyword(s: string)
    ensures Find(s).Some? ==> Occurs(Keyword, s)
  {
    var r := Find(s);
    if r.Some? {
      var i: nat :| i <= |s| && OccursAt(r.value.text, s, i);
      assert r.value.text[..10] == Keyword;
      assert s[i..i + 10] == r.value.text[..10];
      assert OccursAt(Keyword, s, i);
    }
  }

  lemma TryEndSkip(s: string, e: nat, hi: nat, lo: nat)
    requires 10 <= e <= |s| && s[..10] == Keyword && NoNewline(s, 10, e)
    requires lo <= hi <= e
    requires forall p | lo < p <= hi && 15 <= p :: !JsonEndAt(s, p)
    ensures TryEnd(s, e, hi) == TryEnd(s, e, lo)
  {
    TryEndMoves(s, e, hi, lo);
  }

  /** TryEnd at p moves on to p - 1 exactly when no directive ends at p. */
  predicate MovesOn(s: string, e: nat, p: nat)
    requires p <= e <= |s|
  {
    !JsonEndAt(s, p) ||
    (!(p + 2 <= e && s[p..p + 2] == "#/" && LastIndex(s, '>', p + 2, e).Some?) && !(p < e && s[p] == '>'))
  }

  /** One step of TryEnd: it moves on, or stops with the path that ends at p. */
  lemma TryEndStep(s: string, e: nat, p: nat)
    requires 10 <= e <= |s| && s[..10] == Keyword && NoNewline(s, 10, e)
    requires 15 <= p <= e
    ensures MovesOn(s, e, p) ==> TryEnd(s, e, p) == TryEnd(s, e, p - 1)
    ensures !MovesOn(s, e, p) ==> TryEnd(s, e, p).Some? && 10 + |TryEnd(s, e, p).value.path| == p
  {
  }

  lemma SpelledNoNewline(s: string, path: string, tail: string)
    requires s == Keyword + path + tail
    requires '\n' !in path && '\n' !in tail
    ensures NoNewline(s, 10, |s|) && LineEnd(s, 10) == |s| && s[..10] == Keyword
  {
    forall k | 10 <= k < |s| ensures s[k] != '\n' {
      if k < 10 + |path| { assert s[k] == path[k - 10]; } else { assert s[k] == tail[k - 10 - |path|]; }
    }
    var e := LineEnd(s, 10);
    assert e == |s|;
  }

  lemma NotJsonEnd(s: string, p: nat, idx: nat)
    requires 5 <= p <= |s| && p - 5 <= idx < p
    requires s[idx] != ".json"[idx - (p - 5)]
    ensures !JsonEndAt(s, p)
  {
    assert s[p - 5..p][idx - (p - 5)] == s[idx];
  }

  /** `$include <P>` is matched as a directive for path P without a pointer. */
  lemma FindPlain(path: string)
    requires EndsWithJson(path) && '\n' !in path
    ensures Find(Spelling(path, None)) == Some(Directive(Spelling(path, None), path, None))
  {
    var s := Spelling(path, None);
    assert s == Keyword + path + ">";
    SpelledNoNewline(s, path, ">");
    var e := |s|;
    var p := 10 + |path|;
    assert s[p] == '>';
    assert s[e - 1] == '>';
    NotJsonEnd(s, e, e - 1);
    assert s[p - 5..p] == path[|path| - 5..];
    assert s[..p + 1] == s && s[10..p] == path;
    assert TryEnd(s, e, e) == TryEnd(s, e, p);
    assert MatchAt(s) == Some(Directive(s, path, None));
  }

  /**
   * `$include <P#/K>` is matched as a directive for path P with pointer K, provided
   * `.json` does not occur in K: otherwise the greedy path group would run on to the
   * last `.json` of K.
   */
  lemma FindPointer(path: string, key: string)
    requires EndsWithJson(path) && '\n' !in path
    requires '\n' !in key && !Occurs(".json", key)
    ensures Find(Spelling(path, Some(key))) == Some(Directive(Spelling(path, Some(key)), path, Some(key)))
  {
    var s := Spelling(path, Some(key));
    var tail := "#/" + key + ">";
    assert s == Keyword + path + tail;
    SpelledNoNewline(s, path, tail);
    var p0 := 10 + |path|;
    NoJsonInPointer(s, path, key);
    TryEndSkip(s, |s|, |s|, p0);
    PointerAt(s, path, key);
  }

  lemma NoJsonInPointer(s: string, path: string, key: string)
    requires s == Keyword + path + ("#/" + key + ">") && !Occurs(".json", key)
    ensures forall p | 10 + |path| < p <= |s| && 15 <= p :: !JsonEndAt(s, p)
  {
    var p0 := 10 + |path|;
    assert s[p0..] == "#/" + key + ">";
    assert s[p0] == '#' && s[p0 + 1] == '/' && s[|s| - 1] == '>';
    forall p | p0 < p <= |s| && 15 <= p ensures !JsonEndAt(s, p) {
      if p - 5 <= p0 {
        NotJsonEnd(s, p, p0);
      } else if p - 5 == p0 + 1 {
        NotJsonEnd(s, p, p0 + 1);
      } else if p == |s| {
        NotJsonEnd(s, p, p - 1);
      } else {
        KeyWindow(s, p0, key, p);
        assert !OccursAt(".json", key, p - 7 - p0);
      }
    }
  }

  /** The five characters before a position inside the pointer are a window of the key. */
  lemma KeyWindow(s: string, p0: nat, key: string, p: nat)
    requires p0 <= |s| && s[p0..] == "#/" + key + ">" && p0 + 7 <= p < |s|
    ensures p - 2 - p0 <= |key| && s[p - 5..p] == key[p - 7 - p0..p - 2 - p0]
  {
    var tail := "#/" + key + ">";
    var i := p - 7 - p0;
    var w := s[p0..];
    assert w == tail;
    var a, b := s[p - 5..p], key[i..i + 5];
    forall k | 0 <= k < 5 ensures a[k] == b[k] {
      assert a[k] == w[i + 2 + k] == tail[i + 2 + k];
    }
  }

  lemma PointerAt(s: string, path: string, key: string)
    requires s == Keyword + path + ("#/" + key + ">") && EndsWithJson(path)
    requires NoNewline(s, 10, |s|) && s[..10] == Keyword
    ensures TryEnd(s, |s|, 10 + |path|) == Some(Directive(s, path, Some(key)))
  {
    var e := |s|;
    var p0 := 10 + |path|;
    var tail := "#/" + key + ">";
    assert s[p0..] == tail;
    assert s[10..p0] == path;
    assert s[p0 - 5..p0] == path[|path| - 5..];
    assert s[p0..p0 + 2] == tail[..2] == "#/";
    SliceOfSuffix(s, p0, 2, |tail| - 1);
    assert tail[2..|tail| - 1] == key;
    assert s[e - 1] == '>';
    TryEndPointer(s, e, p0);
    assert s[..e] == s;
  }

  /** At a `.json` end followed by `#/` and a later `>`, the pointer group takes the match. */
  lemma TryEndPointer(s: string, e: nat, p: nat)
    requires 10 <= e <= |s| && s[..10] == Keyword && NoNewline(s, 10, e)
    requires 15 <= p && p + 2 < e && JsonEndAt(s, p) && s[p..p + 2] == "#/" && s[e - 1] == '>'
    ensures TryEnd(s, e, p) == Some(Directive(s[..e], s[10..p], Some(s[p + 2..e - 1])))
  {
    assert LastIndex(s, '>', p + 2, e) == Some(e - 1);
  }

  // ---- re.search finds the leftmost match, and finds one whenever a directive occurs ----

  /** `re.search` returns the match at the leftmost position that has one, and None only when no position has one. */
  lemma {:induction false} FindLeftmost(s: string)
    ensures Find(s).None? <==> forall i | 0 <= i < |s| :: MatchAt(s[i..]).None?
    ensures Find(s).Some? ==>
              exists i | 0 <= i < |s| :: MatchAt(s[i..]) == Find(s) && forall j | 0 <= j < i :: MatchAt(s[j..]).None?
    decreases |s|
  {
    if s != [] {
      assert s[0..] == s;
      if MatchAt(s).None? {
        FindLeftmost(s[1..]);
        forall i | 1 <= i < |s| ensures s[1..][i - 1..] == s[i..] { }
        if Find(s).Some? {
          var i :| 0 <= i < |s[1..]| && MatchAt(s[1..][i..]) == Find(s[1..])
                   && forall j | 0 <= j < i :: MatchAt(s[1..][j..]).None?;
          assert MatchAt(s[i + 1..]) == Find(s);
          forall j | 0 <= j < i + 1 ensures MatchAt(s[j..]).None? {
            if j > 0 { assert MatchAt(s[1..][j - 1..]).None?; }
          }
        } else {
          forall i | 0 <= i < |s| ensures MatchAt(s[i..]).None? {
            if i > 0 { assert MatchAt(s[1..][i - 1..]).None?; }
          }
        }
      }
    }
  }

  /** Every well-formed directive that occurs in the string is matched, at its own position or further left. */
  lemma FindComplete(s: string, d: Directive, i: nat)
    requires WellFormed(d) && OccursAt(d.text, s, i)
    ensures Find(s).Some?
    ensures exists j | 0 <= j <= i :: MatchAt(s[j..]) == Find(s)
  {
    var t := s[i..];
    assert t[..|d.text|] == d.text;
    MatchComplete(t, d);
    FindLeftmost(s);
  }

  /** A well-formed directive at the start of t is matched there; the match may be a longer one. */
  lemma MatchComplete(t: string, d: Directive)
    requires WellFormed(d) && OccursAt(d.text, t, 0)
    ensures MatchAt(t).Some?
  {
    var n := |d.text|;
    var p0 := 10 + |d.path|;
    DirectiveLayout(t, d);
    var e := LineEnd(t, 10);
    LineEndPast(t, 10, n);
    if d.pointer.Some? {
      assert LastIndex(t, '>', p0 + 2, e).Some? by { assert t[n - 1] == '>'; }
    }
    TryEndFinds(t, e, e, p0);
  }

  /** Where the parts of a directive at the start of t sit. */
  lemma DirectiveLayout(t: string, d: Directive)
    requires WellFormed(d) && OccursAt(d.text, t, 0)
    ensures var p0 := 10 + |d.path|;
            && 15 <= p0 < |d.text| <= |t| && t[..10] == Keyword && NoNewline(t, 10, |d.text|)
            && JsonEndAt(t, p0)
            && (d.pointer.None? ==> t[p0] == '>')
            && (d.pointer.Some? ==> p0 + 3 <= |d.text| && t[p0..p0 + 2] == "#/" && t[|d.text| - 1] == '>')
  {
    var txt := d.text;
    var n := |txt|;
    var p0 := 10 + |d.path|;
    var tail := (match d.pointer case Some(k) => "#/" + k case None => "") + ">";
    assert txt == Keyword + d.path + tail;
    assert t[..n] == txt;
    SliceOfPrefix(t, txt, 0, 10);
    assert txt[..10] == Keyword;
    forall k | 10 <= k < n ensures t[k] != '\n' {
      assert t[k] == txt[k];
    }
    SliceOfPrefix(t, txt, p0 - 5, p0);
    assert txt[p0 - 5..p0] == d.path[|d.path| - 5..];
    assert txt[p0..] == tail;
    assert t[n - 1] == txt[n - 1];
    assert txt[n - 1] == tail[|tail| - 1];
    if d.pointer.Some? {
      SliceOfPrefix(t, txt, p0, p0 + 2);
      assert txt[p0..p0 + 2] == txt[p0..][..2];
    } else {
      assert t[p0] == txt[p0] == tail[0];
    }
  }

  lemma SliceOfSuffix(s: string, p: nat, a: nat, b: nat)
    requires p <= |s| && a <= b <= |s| - p
    ensures s[p + a..p + b] == s[p..][a..b]
  {
    forall i | 0 <= i < b - a ensures s[p + a..p + b][i] == s[p..][a..b][i] {
      assert s[p + a + i] == s[p..][a + i];
    }
  }

  lemma SliceOfPrefix(t: string, txt: string, a: nat, b: nat)
    requires |txt| <= |t| && t[..|txt|] == txt && a <= b <= |txt|
    ensures t[a..b] == txt[a..b]
  {
    forall i | 0 <= i < b - a ensures t[a..b][i] == txt[a..b][i] {
      assert t[a + i] == t[..|txt|][a + i];
    }
  }

  /** Where the pattern can end a path at p, the backtracking from hi down to p succeeds at p or above it. */
  lemma {:induction false} TryEndFinds(s: string, e: nat, hi: nat, p: nat)
    requires 10 <= e <= |s| && s[..10] == Keyword && NoNewline(s, 10, e)
    requires 15 <= p <= hi <= e && JsonEndAt(s, p)
    requires (p + 2 <= e && s[p..p + 2] == "#/" && LastIndex(s, '>', p + 2, e).Some?) || (p < e && s[p] == '>')
    ensures TryEnd(s, e, hi).Some?
    ensures var r := TryEnd(s, e, hi).value;
            && p <= 10 + |r.path|
            && (10 + |r.path| == p && p + 2 <= e && s[p..p + 2] == "#/" && LastIndex(s, '>', p + 2, e).Some? ==>
                  r.pointer.Some? && |r.text| == LastIndex(s, '>', p + 2, e).value + 1)
    decreases hi
  {
    TryEndAbove(s, e, hi, p);
    TryEndAt(s, e, p);
  }

  /** Scanning down from hi, TryEnd either reaches p or stops at a longer path. */
  lemma TryEndAbove(s: string, e: nat, hi: nat, p: nat)
    requires 10 <= e <= |s| && s[..10] == Keyword && NoNewline(s, 10, e)
    requires 15 <= p <= hi <= e
    ensures TryEnd(s, e, hi) == TryEnd(s, e, p) || (TryEnd(s, e, hi).Some? && p < 10 + |TryEnd(s, e, hi).value.path|)
  {
    var q := LastStop(s, e, hi, p);
    TryEndMoves(s, e, hi, q);
    if q > p {
      TryEndStep(s, e, q);
    }
  }

  /** The highest position in (p, hi] at which TryEnd stops, or p when there is none. */
  lemma {:induction false} LastStop(s: string, e: nat, hi: nat, p: nat) returns (q: nat)
    requires p <= hi <= e <= |s|
    ensures p <= q <= hi
    ensures forall k | q < k <= hi :: MovesOn(s, e, k)
    ensures q > p ==> !MovesOn(s, e, q)
    decreases hi
  {
    if hi == p || !MovesOn(s, e, hi) {
      q := hi;
    } else {
      q := LastStop(s, e, hi - 1, p);
    }
  }

  /** TryEnd runs down from hi to lo when it moves on at every position in between. */
  lemma {:induction false} TryEndMoves(s: string, e: nat, hi: nat, lo: nat)
    requires 10 <= e <= |s| && s[..10] == Keyword && NoNewline(s, 10, e)
    requires lo <= hi <= e
    requires forall k | lo < k <= hi && 15 <= k :: MovesOn(s, e, k)
    ensures TryEnd(s, e, hi) == TryEnd(s, e, lo)
    decreases hi
  {
    if hi > lo {
      if 15 <= hi { TryEndStep(s, e, hi); }
      TryEndMoves(s, e, hi - 1, lo);
    }
  }

  /** TryEnd at a position where a directive ends. */
  lemma TryEndAt(s: string, e: nat, p: nat)
    requires 10 <= e <= |s| && s[..10] == Keyword && NoNewline(s, 10, e)
    requires 15 <= p <= e && JsonEndAt(s, p)
    requires (p + 2 <= e && s[p..p + 2] == "#/" && LastIndex(s, '>', p + 2, e).Some?) || (p < e && s[p] == '>')
    ensures TryEnd(s, e, p).Some? && 10 + |TryEnd(s, e, p).value.path| == p
    ensures p + 2 <= e && s[p..p + 2] == "#/" && LastIndex(s, '>', p + 2, e).Some? ==>
              TryEnd(s, e, p).value.pointer.Some? && |TryEnd(s, e, p).value.text| == LastIndex(s, '>', p + 2, e).value + 1
  {
  }

  /**
   * The greedy choice at one position: the match has the longest path among the
   * well-formed directives that start there; for that path a pointer is preferred to
   * a bare `>`, and the pointer runs to the last `>` of the line.
   */
  lemma MatchAtGreedy(s: string, d: Directive, d': Directive)
    requires MatchAt(s) == Some(d)
    requires WellFormed(d') && OccursAt(d'.text, s, 0)
    ensures |d'.path| <= |d.path|
    ensures |d'.path| == |d.path| && d'.pointer.Some? ==> d.pointer.Some? && |d'.text| <= |d.text|
  {
    var p, n, pointer := 10 + |d'.path|, |d'.text|, d'.pointer.Some?;
    OnLine(s, d');
    GreedyAt(s, p, n, d, pointer);
  }

  /**
   * A directive starts at s[0] whose path ends at p and whose text ends at n, within
   * the line of the keyword; pointer says whether it has a `#/` pointer.
   */
  predicate EndsOnLine(s: string, p: nat, n: nat, pointer: bool) {
    && 10 <= |s| && s[..10] == Keyword
    && 15 <= p < n <= LineEnd(s, 10) && JsonEndAt(s, p)
    && (!pointer ==> s[p] == '>')
    && (pointer ==> p + 3 <= n && s[p..p + 2] == "#/" && s[n - 1] == '>')
  }

  /** DirectiveLayout, with the directive's end placed within the line of the keyword. */
  lemma OnLine(s: string, d: Directive)
    requires WellFormed(d) && OccursAt(d.text, s, 0)
    ensures EndsOnLine(s, 10 + |d.path|, |d.text|, d.pointer.Some?)
  {
    DirectiveLayout(s, d);
    LineEndPast(s, 10, |d.text|);
  }

  /** MatchAtGreedy with the other directive given by where its path ends (p) and its text ends (n). */
  lemma GreedyAt(s: string, p: nat, n: nat, d: Directive, pointer: bool)
    requires MatchAt(s) == Some(d)
    requires EndsOnLine(s, p, n, pointer)
    ensures p <= 10 + |d.path|
    ensures p == 10 + |d.path| && pointer ==> d.pointer.Some? && n <= |d.text|
  {
    var e := LineEnd(s, 10);
    if pointer {
      assert LastIndex(s, '>', p + 2, e).Some? by { assert s[n - 1] == '>'; }
    }
    TryEndFinds(s, e, e, p);
  }
}
