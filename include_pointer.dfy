/**
 * The `#/k1/k2` pointer of an include directive, as `_sub_include`'s inner `lookup`
 * evaluates it: the pointer is split on '/', and every non-empty key indexes the
 * WHOLE loaded document (`tmp = new_data[key]`), not the value selected so far.
 * The outcome is `None` when every key is empty, and otherwise the document's value
 * under the last non-empty key, provided every non-empty key is one of its keys.
 */
module IncludePointer {
  import opened JsonValues

  /** Python's `s.split(sep)`: always at least one part, empty parts kept. */
  function Split(s: string, sep: char): (r: seq<string>)
    ensures |r| >= 1
    ensures forall part | part in r :: sep !in part
  {
    if s == [] then [""]
    else
      var rest := Split(s[1..], sep);
      if s[0] == sep then [""] + rest
      else [[s[0]] + rest[0]] + rest[1..]
  }

  /** `sep.join(parts)`. */
  function JoinWith(parts: seq<string>, sep: char): string
    requires |parts| >= 1
  {
    if |parts| == 1 then parts[0] else parts[0] + [sep] + JoinWith(parts[1..], sep)
  }

  lemma {:induction false} SplitJoin(s: string, sep: char)
    ensures JoinWith(Split(s, sep), sep) == s
  {
    if s != [] {
      var rest := Split(s[1..], sep);
      SplitJoin(s[1..], sep);
      if s[0] == sep {
        assert ([""] + rest)[1..] == rest;
      } else {
        var r := [[s[0]] + rest[0]] + rest[1..];
        if |rest| > 1 {
          assert r[1..] == rest[1..];
          assert JoinWith(rest, sep) == rest[0] + [sep] + JoinWith(rest[1..], sep);
        }
      }
    }
  }

  /** `new_data[key]` for a string key. */
  function Index(doc: Json, key: string): (r: Result<Json>)
    ensures r.Ok? <==> doc.Obj? && HasKey(doc.members, key)
    ensures r.Ok? ==> Lookup(doc.members, key) == Some(r.value)
  {
    match doc
    case Obj(ms) =>
      (match Lookup(ms, key)
       case Some(v) => Ok(v)
       case None => Err(KeyError(key)))
    case _ => Err(TypeError)
  }

  /** The value `tmp` holds after the loop over the first |keys| keys; Python's None is Null. */
  function Select(doc: Json, keys: seq<string>): Result<Json>
  {
    if keys == [] then Ok(Null)
    else
      var before :- Select(doc, keys[..|keys| - 1]);
      var k := keys[|keys| - 1];
      if k == "" then Ok(before) else Index(doc, k)
  }

  /** The pointer loop of `lookup`, as the source runs it. */
  method EvalPointer(doc: Json, keys: seq<string>) returns (r: Result<Json>)
    ensures r == Select(doc, keys)
  {
    var tmp := Null;
    var i := 0;
    while i < |keys|
      invariant 0 <= i <= |keys|
      invariant Select(doc, keys[..i]) == Ok(tmp)
    {
      assert keys[..i + 1][..i] == keys[..i];
      if keys[i] != "" {
        var v := Index(doc, keys[i]);
        if v.Err? {
          SelectErrSticks(doc, keys, i + 1);
          return v;
        }
        tmp := v.value;
      }
      i := i + 1;
    }
    assert keys[..i] == keys;
    return Ok(tmp);
  }

  lemma {:induction false} SelectErrSticks(doc: Json, keys: seq<string>, n: nat)
    requires n <= |keys| && Select(doc, keys[..n]).Err?
    ensures Select(doc, keys) == Select(doc, keys[..n])
    decreases |keys| - n
  {
    if n == |keys| {
      assert keys[..n] == keys;
    } else {
      assert keys[..n + 1][..n] == keys[..n];
      SelectErrSticks(doc, keys, n + 1);
    }
  }

  /** The last non-empty key, if any. */
  function LastNonEmpty(keys: seq<string>): (r: Option<string>)
    ensures r.Some? ==> r.value in keys && r.value != ""
  {
    if keys == [] then None
    else if keys[|keys| - 1] != "" then Some(keys[|keys| - 1])
    else LastNonEmpty(keys[..|keys| - 1])
  }

  /** Every non-empty key is a key of doc. */
  predicate AllKeysPresent(doc: Json, keys: seq<string>) {
    forall k | k in keys && k != "" :: doc.Obj? && HasKey(doc.members, k)
  }

  /**
   * What the pointer selects: an exception unless every non-empty key is a key of
   * the document; then `None` when there is no non-empty key, and otherwise the
   * document's value under the last non-empty key.
   */
  lemma {:induction false} SelectLastKey(doc: Json, keys: seq<string>)
    ensures Select(doc, keys).Ok? <==> AllKeysPresent(doc, keys)
    ensures Select(doc, keys).Ok? ==>
              Select(doc, keys).value ==
                match LastNonEmpty(keys)
                case None => Null
                case Some(k) => Lookup(doc.members, k).value
  {
    if keys != [] {
      var init := keys[..|keys| - 1];
      var k := keys[|keys| - 1];
      SelectLastKey(doc, init);
      assert keys == init + [k];
      assert forall x | x in keys :: x in init || x == k;
      assert forall x | x in init :: x in keys;
      assert k in keys;
      assert AllKeysPresent(doc, keys) <==>
             AllKeysPresent(doc, init) && (k != "" ==> doc.Obj? && HasKey(doc.members, k));
    }
  }

  /** A pointer made of empty segments only selects nothing. */
  lemma SelectEmptyKeys(doc: Json, keys: seq<string>)
    requires forall k | k in keys :: k == ""
    ensures Select(doc, keys) == Ok(Null)
  {
    SelectLastKey(doc, keys);
    NoNonEmpty(keys);
  }

  lemma {:induction false} NoNonEmpty(keys: seq<string>)
    requires forall k | k in keys :: k == ""
    ensures LastNonEmpty(keys) == None
  {
    if keys != [] {
      var init := keys[..|keys| - 1];
      assert keys[|keys| - 1] in keys;
      assert forall k | k in init :: k in keys;
      NoNonEmpty(init);
    }
  }
}
