/**
 * The values the configuration loader works on: the JSON documents that Python's
 * `json` module produces (None, bool, int, str, list, dict), the Python exceptions
 * that escape the loader, and the dictionary operations the loader performs.
 *
 * An object is a list of members rather than a `map`: the model fixes one order of
 * the members, in which every loop over a dict runs, so that iteration is
 * deterministic.
 */
module JsonValues {

  datatype Option<T> = None | Some(value: T)

  /** The exceptions the modelled code can raise; each one aborts the whole call. */
  datatype Error =
    | KeyError(key: string)   // `d[key]` on a dict without that key
    | TypeError               // `in` or `[...]` on a value that does not support it
    | AttributeError          // a method the value does not have (`setdefault`, `items`, `startswith`)
    | RecursionLimit          // the include chain ran out of recursion budget
    | ValidationError         // the schema validator rejected the configuration

  datatype Result<T> = Ok(value: T) | Err(error: Error) {
    predicate IsFailure() { Err? }

    function PropagateFailure<U>(): Result<U>
      requires Err?
    {
      Err(error)
    }

    function Extract(): T
      requires Ok?
    {
      value
    }
  }

  /** A decoded JSON document. Floating-point numbers are not modelled. */
  datatype Json =
    | Null
    | Bool(b: bool)
    | Int(n: int)
    | Str(s: string)
    | Arr(items: seq<Json>)
    | Obj(members: seq<(string, Json)>)

  type Members = seq<(string, Json)>

  /** Python truthiness: `not data` holds exactly when this is false. */
  predicate Truthy(j: Json) {
    match j
    case Null => false
    case Bool(b) => b
    case Int(n) => n != 0
    case Str(s) => s != []
    case Arr(xs) => xs != []
    case Obj(ms) => ms != []
  }

  predicate HasKey(ms: Members, k: string) {
    exists i | 0 <= i < |ms| :: ms[i].0 == k
  }

  /** The keys of a dict, as a set. */
  function KeySet(ms: Members): set<string> {
    set i | 0 <= i < |ms| :: ms[i].0
  }

  /** A Python dict never holds a key twice. */
  predicate DistinctKeys(ms: Members) {
    forall i, j | 0 <= i < j < |ms| :: ms[i].0 != ms[j].0
  }

  /** Position of the member with key k, or -1 when there is none. */
  function IndexOf(ms: Members, k: string): (r: int)
    ensures -1 <= r < |ms|
    ensures r >= 0 ==> ms[r].0 == k && forall i | 0 <= i < r :: ms[i].0 != k
    ensures r < 0 <==> !HasKey(ms, k)
  {
    IndexFrom(ms, k, 0)
  }

  function IndexFrom(ms: Members, k: string, from: nat): (r: int)
    requires from <= |ms|
    requires forall i | 0 <= i < from :: ms[i].0 != k
    ensures -1 <= r < |ms|
    ensures r >= 0 ==> from <= r && ms[r].0 == k && forall i | 0 <= i < r :: ms[i].0 != k
    ensures r < 0 <==> !HasKey(ms, k)
    decreases |ms| - from
  {
    if from == |ms| then -1
    else if ms[from].0 == k then from
    else IndexFrom(ms, k, from + 1)
  }

  /** `k in d` and `d[k]`: the value stored under k, if any. */
  function Lookup(ms: Members, k: string): (r: Option<Json>)
    ensures r.Some? <==> HasKey(ms, k)
    ensures r.Some? ==> exists i | 0 <= i < |ms| :: ms[i] == (k, r.value)
  {
    var i := IndexOf(ms, k);
    if i < 0 then None else Some(ms[i].1)
  }

  /** `d[k] = v`: an existing key keeps its position, a new key goes at the end. */
  function Assign(ms: Members, k: string, v: Json): (r: Members)
    ensures Lookup(r, k) == Some(v)
    ensures forall k' | k' != k :: Lookup(r, k') == Lookup(ms, k')
    ensures KeySet(r) == KeySet(ms) + {k}
    ensures DistinctKeys(ms) ==> DistinctKeys(r)
    ensures HasKey(ms, k) ==> |r| == |ms| && forall i | 0 <= i < |ms| :: r[i].0 == ms[i].0
    ensures HasKey(ms, k) ==> forall i | 0 <= i < |ms| && ms[i].0 != k :: r[i] == ms[i]
    ensures !HasKey(ms, k) ==> r == ms + [(k, v)]
    ensures HasKey(ms, k) ==> r == ms[IndexOf(ms, k) := (k, v)]
    ensures forall i | 0 <= i < |r| :: r[i] in ms || r[i] == (k, v)
  {
    var i := IndexOf(ms, k);
    if i < 0 then
      var r := ms + [(k, v)];
      assert r[|ms|].0 == k;
      KeySetAppend(ms, (k, v));
      LookupAppend(ms, k, v);
      r
    else
      var r := ms[i := (k, v)];
      assert forall j | 0 <= j < |r| :: r[j].0 == ms[j].0;
      assert KeySet(r) == KeySet(ms);
      r
  }

  lemma KeySetAppend(ms: Members, m: (string, Json))
    ensures KeySet(ms + [m]) == KeySet(ms) + {m.0}
  {
    var r := ms + [m];
    forall x ensures x in KeySet(r) <==> x in KeySet(ms) + {m.0} {
      if x in KeySet(ms) {
        var j :| 0 <= j < |ms| && ms[j].0 == x;
        assert r[j].0 == x;
      }
      if x in KeySet(r) {
        var j :| 0 <= j < |r| && r[j].0 == x;
        if j < |ms| { assert ms[j].0 == x; }
      }
      if x == m.0 { assert r[|ms|].0 == x; }
    }
  }

  lemma LookupAppend(ms: Members, k: string, v: Json)
    requires !HasKey(ms, k)
    ensures Lookup(ms + [(k, v)], k) == Some(v)
    ensures forall k' | k' != k :: Lookup(ms + [(k, v)], k') == Lookup(ms, k')
  {
    var r := ms + [(k, v)];
    assert r[|ms|].0 == k;
    forall k' | k' != k
      ensures Lookup(r, k') == Lookup(ms, k')
    {
      var i := IndexOf(ms, k');
      if i >= 0 {
        assert r[i] == ms[i];
      } else {
        assert !HasKey(r, k') by {
          forall j | 0 <= j < |r| ensures r[j].0 != k' {
            if j < |ms| { assert r[j] == ms[j]; }
          }
        }
      }
    }
  }

  /** `d.setdefault(k, v)`: adds k only when it is absent, never overwrites. */
  function SetDefault(ms: Members, k: string, v: Json): (r: Members)
    ensures HasKey(ms, k) ==> r == ms
    ensures !HasKey(ms, k) ==> r == ms + [(k, v)]
    ensures Lookup(r, k) == if HasKey(ms, k) then Lookup(ms, k) else Some(v)
    ensures forall k' | k' != k :: Lookup(r, k') == Lookup(ms, k')
    ensures KeySet(r) == KeySet(ms) + {k}
  {
    if HasKey(ms, k) then ms else Assign(ms, k, v)
  }

  /** Keys already present are found in the same place after members are appended. */
  lemma LookupExtend(ms: Members, more: Members, k: string)
    requires HasKey(ms, k)
    ensures Lookup(ms + more, k) == Lookup(ms, k)
  {
    var i := IndexOf(ms, k);
    var r := ms + more;
    assert r[i] == ms[i];
    assert forall j | 0 <= j < i :: r[j] == ms[j];
    assert IndexOf(r, k) == i;
  }

  lemma HasKeyKeySet(ms: Members, k: string)
    ensures HasKey(ms, k) <==> k in KeySet(ms)
  {
    if k in KeySet(ms) {
      var i :| 0 <= i < |ms| && ms[i].0 == k;
    }
  }
}
