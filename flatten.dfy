/**
 * `flatten_dict`: turns nested objects into one object whose keys are the
 * '.'-joined key paths of the nested leaves.
 */
module Flatten {
  import opened JsonValues

  /** `flatten_dict(d)`. */
  function FlattenDict(d: Members): (r: Members)
    ensures DistinctKeys(r)
    ensures forall i | 0 <= i < |r| :: !r[i].1.Obj?
    ensures KeySet(r) == Joined(KeyPaths(Obj(d)))
    ensures forall m | m in r :: m in JoinedLeaves(Leaves(Obj(d)))
  {
    FlattenObj(Obj(d))
  }

  function FlattenObj(j: Json): (r: Members)
    requires j.Obj?
    ensures DistinctKeys(r)
    ensures forall i | 0 <= i < |r| :: !r[i].1.Obj?
    ensures KeySet(r) == Joined(KeyPaths(j))
    ensures forall m | m in r :: m in JoinedLeaves(Leaves(j))
    decreases j, 2
  {
    DictOf(Items(j, 0))
  }

  /** The list `items` that `flatten_dict` builds from the members of j, from member i on. */
  function Items(j: Json, i: nat): (r: Members)
    requires j.Obj? && i <= |j.members|
    ensures forall m | m in r :: !m.1.Obj?
    ensures KeySet(r) == Joined(KeyPathsFrom(j, i))
    ensures forall m | m in r :: m in JoinedLeaves(LeavesFrom(j, i))
    decreases j, 1, |j.members| - i
  {
    if i == |j.members| then []
    else
      var r := Expand(j.members[i].0, j.members[i].1) + Items(j, i + 1);
      KeySetConcat(Expand(j.members[i].0, j.members[i].1), Items(j, i + 1));
      JoinedUnion(Under(j.members[i].0, j.members[i].1), KeyPathsFrom(j, i + 1));
      JoinedLeavesUnion(LeavesUnder(j.members[i].0, j.members[i].1), LeavesFrom(j, i + 1));
      r
  }

  /** The inner `expand(key, value)`. */
  function Expand(key: string, value: Json): (r: Members)
    ensures forall m | m in r :: !m.1.Obj?
    ensures KeySet(r) == Joined(Under(key, value))
    ensures forall m | m in r :: m in JoinedLeaves(LeavesUnder(key, value))
    decreases value, 3
  {
    if value.Obj? then
      var inner := FlattenObj(value);
      KeyPathsNonEmpty(value);
      JoinedPrefixed(key, KeyPaths(value));
      PrefixedKeySet(key, inner);
      PrefixedLeaves(key, value, inner);
      Prefixed(key, inner)
    else
      LeafKeySet(key, value);
      LeafLeaves(key, value);
      [(key, value)]
  }

  lemma PrefixedKeySet(key: string, inner: Members)
    ensures KeySet(Prefixed(key, inner)) == Dotted(key, KeySet(inner))
  {
    var r := Prefixed(key, inner);
    forall x ensures x in KeySet(r) <==> x in Dotted(key, KeySet(inner)) {
      if x in KeySet(r) {
        var i :| 0 <= i < |r| && r[i].0 == x;
        assert inner[i].0 in KeySet(inner);
      }
      if x in Dotted(key, KeySet(inner)) {
        var y :| y in KeySet(inner) && x == key + "." + y;
        var i :| 0 <= i < |inner| && inner[i].0 == y;
        assert r[i].0 == x;
      }
    }
  }

  lemma LeafKeySet(key: string, value: Json)
    requires !value.Obj?
    ensures KeySet([(key, value)]) == Joined(Under(key, value))
  {
    var r := [(key, value)];
    assert KeySet(r) == {key} by { assert r[0].0 == key; }
    assert Under(key, value) == {[key]} by {
      assert KeyPaths(value) == {[]};
      assert [key] + [] == [key];
    }
    assert Joined({[key]}) == {key} by { assert JoinDots([key]) == key; }
  }

  lemma PrefixedLeaves(key: string, value: Json, inner: Members)
    requires value.Obj?
    requires forall m | m in inner :: m in JoinedLeaves(Leaves(value))
    ensures forall m | m in Prefixed(key, inner) :: m in JoinedLeaves(LeavesUnder(key, value))
  {
    var r := Prefixed(key, inner);
    LeavesNonEmpty(value);
    forall m | m in r ensures m in JoinedLeaves(LeavesUnder(key, value)) {
      var i :| 0 <= i < |r| && r[i] == m;
      assert inner[i] in inner;
      var l :| l in Leaves(value) && inner[i] == (JoinDots(l.0), l.1);
      var l' := ([key] + l.0, l.1);
      assert l' in LeavesUnder(key, value);
      assert l'.0[1..] == l.0;
      assert JoinDots(l'.0) == key + "." + JoinDots(l.0);
    }
  }

  lemma LeafLeaves(key: string, value: Json)
    requires !value.Obj?
    ensures (key, value) in JoinedLeaves(LeavesUnder(key, value))
  {
    assert ([], value) in Leaves(value);
    assert ([key] + [], value) in LeavesUnder(key, value);
    assert [key] + [] == [key] && JoinDots([key]) == key;
  }

  function Prefixed(key: string, ms: Members): (r: Members)
    ensures |r| == |ms|
    ensures forall i | 0 <= i < |r| :: r[i] == (key + "." + ms[i].0, ms[i].1)
  {
    seq(|ms|, i requires 0 <= i < |ms| => (key + "." + ms[i].0, ms[i].1))
  }

  /**
   * `dict(items)`: pairs are stored left to right, so a repeated key ends up with the
   * value of its last item; in the model it keeps the position of its first item.
   */
  function DictOf(items: Members): (r: Members)
    ensures DistinctKeys(r)
    ensures KeySet(r) == KeySet(items)
    ensures forall i | 0 <= i < |r| :: r[i] in items
    ensures DistinctKeys(items) ==> r == items
    ensures forall i | 0 <= i < |items| && LastOfKey(items, i) :: Lookup(r, items[i].0) == Some(items[i].1)
  {
    if items == [] then []
    else
      var init := items[..|items| - 1];
      var last := items[|items| - 1];
      assert items == init + [last];
      var r := Assign(DictOf(init), last.0, last.1);
      DictOfStep(items, init, last, DictOf(init), r);
      r
  }

  /** No later item has the key of item i. */
  predicate LastOfKey(items: Members, i: nat)
    requires i < |items|
  {
    forall j | i < j < |items| :: items[j].0 != items[i].0
  }

  /** The contract of DictOf for items, from that for its prefix init. */
  lemma DictOfStep(items: Members, init: Members, last: (string, Json), d: Members, r: Members)
    requires items == init + [last]
    requires DistinctKeys(d) && KeySet(d) == KeySet(init) && (forall i | 0 <= i < |d| :: d[i] in init)
    requires DistinctKeys(init) ==> d == init
    requires forall i | 0 <= i < |init| && LastOfKey(init, i) :: Lookup(d, init[i].0) == Some(init[i].1)
    requires r == Assign(d, last.0, last.1)
    ensures DistinctKeys(r) && KeySet(r) == KeySet(items) && (forall i | 0 <= i < |r| :: r[i] in items)
    ensures DistinctKeys(items) ==> r == items
    ensures forall i | 0 <= i < |items| && LastOfKey(items, i) :: Lookup(r, items[i].0) == Some(items[i].1)
  {
    KeySetAppend(init, last);
    LastWins(items, init, last, d, r);
    if DistinctKeys(items) {
      DistinctInit(items, init, last);
    }
  }

  lemma DistinctInit(items: Members, init: Members, last: (string, Json))
    requires items == init + [last] && DistinctKeys(items)
    ensures DistinctKeys(init) && !HasKey(init, last.0)
  {
    assert forall i | 0 <= i < |init| :: items[i] == init[i];
    assert items[|init|] == last;
  }

  lemma LastWins(items: Members, init: Members, last: (string, Json), d: Members, r: Members)
    requires items == init + [last]
    requires forall i | 0 <= i < |init| && LastOfKey(init, i) :: Lookup(d, init[i].0) == Some(init[i].1)
    requires r == Assign(d, last.0, last.1)
    ensures forall i | 0 <= i < |items| && LastOfKey(items, i) :: Lookup(r, items[i].0) == Some(items[i].1)
  {
    forall i | 0 <= i < |items| && LastOfKey(items, i) ensures Lookup(r, items[i].0) == Some(items[i].1) {
      if i < |init| {
        assert items[i] == init[i];
        assert items[|init|] == last;
        assert LastOfKey(init, i) by {
          forall j | i < j < |init| ensures init[j].0 != init[i].0 { assert items[j] == init[j]; }
        }
      }
    }
  }

  // ---- Key paths: the reference description of the flattened keys ----

  /**
   * The key paths from j down to each leaf that is not an object: a non-object is
   * its own leaf (the empty path), an empty object has no leaf.
   */
  function KeyPaths(j: Json): set<seq<string>>
    decreases j, 2
  {
    match j
    case Obj(_) => KeyPathsFrom(j, 0)
    case _ => {[]}
  }

  function KeyPathsFrom(j: Json, i: nat): set<seq<string>>
    requires j.Obj? && i <= |j.members|
    decreases j, 1, |j.members| - i
  {
    if i == |j.members| then {}
    else Under(j.members[i].0, j.members[i].1) + KeyPathsFrom(j, i + 1)
  }

  /** The key paths of the leaves under member (key, value). */
  function Under(key: string, value: Json): set<seq<string>>
    decreases value, 3
  {
    set p | p in KeyPaths(value) :: [key] + p
  }

  /**
   * The leaves under j with their key paths: this is KeyPaths with the value that
   * sits at the end of each path.
   */
  function Leaves(j: Json): set<(seq<string>, Json)>
    decreases j, 2
  {
    match j
    case Obj(_) => LeavesFrom(j, 0)
    case _ => {([], j)}
  }

  function LeavesFrom(j: Json, i: nat): set<(seq<string>, Json)>
    requires j.Obj? && i <= |j.members|
    decreases j, 1, |j.members| - i
  {
    if i == |j.members| then {}
    else LeavesUnder(j.members[i].0, j.members[i].1) + LeavesFrom(j, i + 1)
  }

  function LeavesUnder(key: string, value: Json): set<(seq<string>, Json)>
    decreases value, 3
  {
    set l | l in Leaves(value) :: ([key] + l.0, l.1)
  }

  /** The leaves as flattened members: each key path joined with dots. */
  function JoinedLeaves(ls: set<(seq<string>, Json)>): set<(string, Json)> {
    set l | l in ls :: (JoinDots(l.0), l.1)
  }

  /** A key path written as one key: ["a", "b", "c"] becomes "a.b.c". */
  function JoinDots(p: seq<string>): string {
    if |p| <= 1 then (if p == [] then "" else p[0])
    else p[0] + "." + JoinDots(p[1..])
  }

  function Joined(ps: set<seq<string>>): set<string> {
    set p | p in ps :: JoinDots(p)
  }

  function Dotted(key: string, keys: set<string>): set<string> {
    set x | x in keys :: key + "." + x
  }

  lemma {:induction false} KeyPathsNonEmpty(j: Json)
    requires j.Obj?
    ensures forall p | p in KeyPaths(j) :: p != []
  {
    KeyPathsFromNonEmpty(j, 0);
  }

  lemma {:induction false} KeyPathsFromNonEmpty(j: Json, i: nat)
    requires j.Obj? && i <= |j.members|
    ensures forall p | p in KeyPathsFrom(j, i) :: p != []
    decreases |j.members| - i
  {
    if i < |j.members| {
      KeyPathsFromNonEmpty(j, i + 1);
    }
  }

  lemma JoinedPrefixed(key: string, ps: set<seq<string>>)
    requires forall p | p in ps :: p != []
    ensures Joined(set p | p in ps :: [key] + p) == Dotted(key, Joined(ps))
  {
    var lhs := set p | p in ps :: [key] + p;
    forall x ensures x in Joined(lhs) <==> x in Dotted(key, Joined(ps)) {
      if x in Joined(lhs) {
        var q :| q in lhs && JoinDots(q) == x;
        var p :| p in ps && q == [key] + p;
        assert q[1..] == p;
        assert JoinDots(p) in Joined(ps);
      }
      if x in Dotted(key, Joined(ps)) {
        var y :| y in Joined(ps) && x == key + "." + y;
        var p :| p in ps && JoinDots(p) == y;
        var q := [key] + p;
        assert q[1..] == p;
        assert q in lhs;
      }
    }
  }

  lemma {:induction false} LeavesNonEmpty(j: Json)
    requires j.Obj?
    ensures forall l | l in Leaves(j) :: l.0 != []
  {
    LeavesFromNonEmpty(j, 0);
  }

  lemma {:induction false} LeavesFromNonEmpty(j: Json, i: nat)
    requires j.Obj? && i <= |j.members|
    ensures forall l | l in LeavesFrom(j, i) :: l.0 != []
    decreases |j.members| - i
  {
    if i < |j.members| {
      LeavesFromNonEmpty(j, i + 1);
    }
  }

  lemma JoinedLeavesUnion(a: set<(seq<string>, Json)>, b: set<(seq<string>, Json)>)
    ensures JoinedLeaves(a + b) == JoinedLeaves(a) + JoinedLeaves(b)
  {
  }

  lemma JoinedUnion(a: set<seq<string>>, b: set<seq<string>>)
    ensures Joined(a + b) == Joined(a) + Joined(b)
  {
  }

  lemma KeySetConcat(a: Members, b: Members)
    ensures KeySet(a + b) == KeySet(a) + KeySet(b)
  {
    var c := a + b;
    forall x ensures x in KeySet(c) <==> x in KeySet(a) + KeySet(b) {
      if x in KeySet(c) {
        var i :| 0 <= i < |c| && c[i].0 == x;
        if i < |a| { assert a[i].0 == x; } else { assert b[i - |a|].0 == x; }
      }
      if x in KeySet(a) {
        var i :| 0 <= i < |a| && a[i].0 == x;
        assert c[i].0 == x;
      }
      if x in KeySet(b) {
        var i :| 0 <= i < |b| && b[i].0 == x;
        assert c[|a| + i].0 == x;
      }
    }
  }

  // ---- Properties of flatten_dict ----

  /** Every leaf sits at the end of one of the key paths. */
  lemma {:induction false} LeavesPaths(j: Json)
    ensures forall l | l in Leaves(j) :: l.0 in KeyPaths(j)
    decreases j, 2
  {
    if j.Obj? {
      LeavesFromPaths(j, 0);
    }
  }

  lemma {:induction false} LeavesFromPaths(j: Json, i: nat)
    requires j.Obj? && i <= |j.members|
    ensures forall l | l in LeavesFrom(j, i) :: l.0 in KeyPathsFrom(j, i)
    decreases j, 1, |j.members| - i
  {
    if i < |j.members| {
      LeavesUnderPaths(j.members[i].0, j.members[i].1);
      LeavesFromPaths(j, i + 1);
    }
  }

  lemma {:induction false} LeavesUnderPaths(key: string, value: Json)
    ensures forall l | l in LeavesUnder(key, value) :: l.0 in Under(key, value)
    decreases value, 3
  {
    LeavesPaths(value);
    forall l | l in LeavesUnder(key, value) ensures l.0 in Under(key, value) {
      var l0 :| l0 in Leaves(value) && l == ([key] + l0.0, l0.1);
      assert l0.0 in KeyPaths(value);
    }
  }

  /**
   * When no two leaves are flattened to the same key with different values, every
   * leaf appears in the result under its joined key path.
   */
  lemma FlattenValues(d: Members)
    requires forall a, b | a in JoinedLeaves(Leaves(Obj(d))) && b in JoinedLeaves(Leaves(Obj(d))) && a.0 == b.0 :: a.1 == b.1
    ensures forall l | l in Leaves(Obj(d)) :: (JoinDots(l.0), l.1) in FlattenDict(d)
  {
    var r := FlattenDict(d);
    LeavesPaths(Obj(d));
    forall l | l in Leaves(Obj(d)) ensures (JoinDots(l.0), l.1) in r {
      assert (JoinDots(l.0), l.1) in JoinedLeaves(Leaves(Obj(d)));
      assert JoinDots(l.0) in KeySet(r);
      var i :| 0 <= i < |r| && r[i].0 == JoinDots(l.0);
      assert r[i] in r;
    }
  }

  /** An object that holds no nested object comes back unchanged. */
  lemma {:induction false} FlatDictUnchanged(d: Members)
    requires DistinctKeys(d)
    requires forall i | 0 <= i < |d| :: !d[i].1.Obj?
    ensures FlattenDict(d) == d
  {
    ItemsOfFlat(d, 0);
    assert d[0..] == d;
  }

  lemma {:induction false} ItemsOfFlat(d: Members, i: nat)
    requires i <= |d|
    requires forall k | 0 <= k < |d| :: !d[k].1.Obj?
    ensures Items(Obj(d), i) == d[i..]
    decreases |d| - i
  {
    if i < |d| {
      ItemsOfFlat(d, i + 1);
      assert d[i..] == [d[i]] + d[i + 1..];
    }
  }
}
