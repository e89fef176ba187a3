/**
 * `_get_json_data` and `_sub_include`: loading one source and expanding the include
 * directives in its string leaves, recursively through the files they name.
 *
 * The file system, `os.environ` and `os.path` are the `World`. A nested include is
 * loaded by `_get_json_data(new_inc_file, True, cfg_dir, True)`: include expansion
 * only, no environment substitution, the top-level `cfg_dir` again as the base
 * directory, and the included file itself as the file whose self-inclusion is refused.
 * Only a file including itself is refused; a longer cycle recurses until Python's
 * recursion limit, modelled by the budget `fuel` running out (`RecursionLimit`).
 */
module Loader {
  import opened JsonValues
  import opened Text
  import opened EnvSubst
  import opened IncludeDirective
  import opened IncludePointer

  /**
   * What the loader reads from outside: the decoded JSON of every existing file,
   * keyed by absolute path; `os.environ`; `os.path.join` and `os.path.abspath`.
   */
  datatype World = World(
    files: map<string, Json>,
    environ: Env,
    join: (string, string) -> string,
    abspath: string -> string)

  /** The `json_in` argument: a path (str), a dict, or a value of any other type. */
  datatype Source = FromPath(path: string) | FromDict(fields: Members) | FromOther(raw: Json)

  /** The pair `(data, status)` returned by `_get_json_data`. */
  datatype Loaded = Loaded(data: Json, status: bool)

  /** The loading step: a path that exists, or a dict, gives status True; all else `("", False)`. */
  function Read(w: World, src: Source): (r: Loaded)
    ensures !r.status ==> r == Loaded(Str(""), false)
    ensures r.status <==> (src.FromPath? && w.abspath(src.path) in w.files) || src.FromDict?
  {
    match src
    case FromPath(p) =>
      if w.abspath(p) in w.files then Loaded(w.files[w.abspath(p)], true) else Loaded(Str(""), false)
    case FromDict(ms) => Loaded(Obj(ms), true)
    case FromOther(_) => Loaded(Str(""), false)
  }

  /**
   * `_get_json_data(json_in, parse_include, cfg_dir, _, os_env, env_opt)`: load, then
   * expand includes, then substitute `os.environ`, then substitute `env_opt`.
   */
  function GetJsonData(w: World, src: Source, parseInclude: bool, cfgDir: string,
                       osEnv: bool, envOpt: Env, fuel: nat): (r: Result<Loaded>)
    ensures !Read(w, src).status ==> r == Ok(Loaded(Str(""), false))
    ensures r.Ok? ==> r.value.status == Read(w, src).status
    decreases fuel, 1
  {
    var loaded := Read(w, src);
    if !loaded.status then Ok(loaded)
    else
      var included :- if parseInclude then SubInclude(w, src, loaded.data, cfgDir, fuel) else Ok(loaded.data);
      var withOs := if osEnv then SubEnv(included, w.environ) else included;
      var withOpt := if |envOpt| != 0 then SubEnv(withOs, envOpt) else withOs;
      Ok(Loaded(withOpt, true))
  }

  /** `_sub_include(pattern, in_file, data, cfg_dir)`; the `pattern` argument is never used. */
  function SubInclude(w: World, inFile: Source, data: Json, cfgDir: string, fuel: nat): (r: Result<Json>)
    ensures r.Ok? ==> Reshaped(data, r.value)
    decreases fuel, 0, data, 2
  {
    if !Truthy(data) then
      ReshapedRefl(data);
      Ok(data)
    else
      match data
      case Obj(ms) =>
        var out :- SubIncludeMembers(w, inFile, data, 0, cfgDir, fuel);
        Ok(Obj(out))
      case Arr(xs) =>
        var out :- SubIncludeItems(w, inFile, data, 0, cfgDir, fuel);
        Ok(Arr(out))
      case Str(s) => PatternMatch(w, inFile, s, cfgDir, fuel)
      case _ => Ok(data)
  }

  /** The loop `for key, value in data.iteritems(): data[key] = ...`, from member i on. */
  function SubIncludeMembers(w: World, inFile: Source, j: Json, i: nat, cfgDir: string, fuel: nat)
    : (r: Result<Members>)
    requires j.Obj? && i <= |j.members|
    ensures r.Ok? ==> |r.value| == |j.members| - i
    ensures r.Ok? ==> forall k | 0 <= k < |r.value| ::
                        r.value[k].0 == j.members[i + k].0 && Reshaped(j.members[i + k].1, r.value[k].1)
    decreases fuel, 0, j, 1, |j.members| - i
  {
    if i == |j.members| then Ok([])
    else
      var v :- SubInclude(w, inFile, j.members[i].1, cfgDir, fuel);
      var rest :- SubIncludeMembers(w, inFile, j, i + 1, cfgDir, fuel);
      Ok([(j.members[i].0, v)] + rest)
  }

  /** The loop `for index, value in enumerate(data): data[index] = ...`, from element i on. */
  function SubIncludeItems(w: World, inFile: Source, j: Json, i: nat, cfgDir: string, fuel: nat)
    : (r: Result<seq<Json>>)
    requires j.Arr? && i <= |j.items|
    ensures r.Ok? ==> |r.value| == |j.items| - i
    ensures r.Ok? ==> forall k | 0 <= k < |r.value| :: Reshaped(j.items[i + k], r.value[k])
    decreases fuel, 0, j, 1, |j.items| - i
  {
    if i == |j.items| then Ok([])
    else
      var v :- SubInclude(w, inFile, j.items[i], cfgDir, fuel);
      var rest :- SubIncludeItems(w, inFile, j, i + 1, cfgDir, fuel);
      Ok([v] + rest)
  }

  /**
   * The inner `pattern_match` and `lookup` on one string leaf. On success the whole
   * string is replaced (its type may change); a refused or failed include leaves
   * only the directive text; a selected `None` keeps the string as it was.
   */
  function PatternMatch(w: World, inFile: Source, s: string, cfgDir: string, fuel: nat): Result<Json>
    decreases fuel, 0, Str(s), 1
  {
    match Find(s)
    case None => Ok(Str(s))
    case Some(d) =>
      var target := w.abspath(w.join(cfgDir, d.path));
      if !inFile.FromPath? then Err(AttributeError)
      else if target == w.abspath(inFile.path) then Ok(Str(d.text))
      else if fuel == 0 then Err(RecursionLimit)
      else Included(s, d, GetJsonData(w, FromPath(target), true, cfgDir, false, map[], fuel - 1))
  }

  /** What replaces the leaf s once the file its directive d names has been loaded. */
  function Included(s: string, d: Directive, load: Result<Loaded>): Result<Json> {
    var loaded :- load;
    if !loaded.status then Ok(Str(d.text))
    else
      var picked :- match d.pointer
                    case None => Ok(loaded.data)
                    case Some(k) => Select(loaded.data, Split(k, '/'));
      Ok(if picked == Null then Str(s) else picked)
  }

  /**
   * b is a possible result of include expansion on a: the same keys in the same
   * order, lists of the same length, non-string scalars unchanged; a string may have
   * become any value.
   */
  predicate Reshaped(a: Json, b: Json) {
    match a
    case Obj(ms) =>
      b.Obj? && |b.members| == |ms| &&
      forall i | 0 <= i < |ms| :: b.members[i].0 == ms[i].0 && Reshaped(ms[i].1, b.members[i].1)
    case Arr(xs) =>
      b.Arr? && |b.items| == |xs| &&
      forall i | 0 <= i < |xs| :: Reshaped(xs[i], b.items[i])
    case Str(_) => true
    case _ => b == a
  }

  lemma {:induction false} ReshapedRefl(a: Json)
    ensures Reshaped(a, a)
  {
    match a
    case Obj(ms) =>
      forall i | 0 <= i < |ms| ensures Reshaped(ms[i].1, ms[i].1) { ReshapedRefl(ms[i].1); }
    case Arr(xs) =>
      forall i | 0 <= i < |xs| ensures Reshaped(xs[i], xs[i]) { ReshapedRefl(xs[i]); }
    case _ =>
  }

  // ---- Include expansion of one string leaf ----

  /** A leaf in which `$include <` does not occur is left as it is. */
  lemma NoDirectiveLeaf(w: World, inFile: Source, s: string, cfgDir: string, fuel: nat)
    requires !Occurs(Keyword, s)
    ensures SubInclude(w, inFile, Str(s), cfgDir, fuel) == Ok(Str(s))
  {
    NoKeywordNoDirective(s);
  }

  lemma DirectiveLeafTruthy(s: string)
    requires Find(s).Some?
    ensures Truthy(Str(s))
  {
    var t := Find(s).value.text;
    var i: nat :| i <= |s| && OccursAt(t, s, i);
  }

  /**
   * A directive naming the file being expanded is refused: the leaf becomes the
   * directive text, whatever the file system holds (no file is read).
   */
  lemma SelfInclude(w: World, f: string, s: string, cfgDir: string, fuel: nat, files: map<string, Json>)
    requires Find(s).Some?
    requires w.abspath(w.join(cfgDir, Find(s).value.path)) == w.abspath(f)
    ensures SubInclude(w.(files := files), FromPath(f), Str(s), cfgDir, fuel) == Ok(Str(Find(s).value.text))
  {
    DirectiveLeafTruthy(s);
  }

  /** A directive whose target file does not exist leaves only the directive text. */
  lemma MissingTarget(w: World, f: string, s: string, cfgDir: string, fuel: nat)
    requires Find(s).Some?
    requires var target := w.abspath(w.join(cfgDir, Find(s).value.path));
             target != w.abspath(f) && w.abspath(target) !in w.files
    requires fuel > 0
    ensures SubInclude(w, FromPath(f), Str(s), cfgDir, fuel) == Ok(Str(Find(s).value.text))
  {
    DirectiveLeafTruthy(s);
  }

  /** A directive inside a document that was passed as a dict fails: `abspath` of a dict. */
  lemma DirectiveInDict(w: World, fields: Members, s: string, cfgDir: string, fuel: nat)
    requires Find(s).Some?
    ensures SubInclude(w, FromDict(fields), Str(s), cfgDir, fuel) == Err(AttributeError)
  {
    DirectiveLeafTruthy(s);
  }

  /**
   * Without a pointer the leaf becomes the whole included document after ITS include
   * expansion, done with the included file as `in_file`, the same `cfg_dir`, and no
   * environment substitution; a document that is `null` keeps the string instead.
   */
  lemma WholeInclude(w: World, f: string, s: string, cfgDir: string, fuel: nat)
    requires Find(s).Some? && Find(s).value.pointer.None?
    requires var target := w.abspath(w.join(cfgDir, Find(s).value.path));
             target != w.abspath(f) && w.abspath(target) in w.files
    requires fuel > 0
    ensures var target := w.abspath(w.join(cfgDir, Find(s).value.path));
            SubInclude(w, FromPath(f), Str(s), cfgDir, fuel) ==
              match SubInclude(w, FromPath(target), w.files[w.abspath(target)], cfgDir, fuel - 1)
              case Ok(v) => Ok(if v == Null then Str(s) else v)
              case Err(e) => Err(e)
  {
    DirectiveLeafTruthy(s);
    var target := w.abspath(w.join(cfgDir, Find(s).value.path));
    assert SubInclude(w, FromPath(f), Str(s), cfgDir, fuel) == PatternMatch(w, FromPath(f), s, cfgDir, fuel);
    var inner := SubInclude(w, FromPath(target), w.files[w.abspath(target)], cfgDir, fuel - 1);
    assert GetJsonData(w, FromPath(target), true, cfgDir, false, map[], fuel - 1) ==
           match inner case Ok(v) => Ok(Loaded(v, true)) case Err(e) => Err(e);
  }

  /**
   * With a pointer the leaf becomes the included document's value under the LAST
   * non-empty pointer key; every non-empty key must be a key of the document itself,
   * or the call fails; a pointer of empty keys only, or a selected `null`, keeps the string.
   */
  lemma PointerInclude(w: World, f: string, s: string, cfgDir: string, fuel: nat, doc: Json)
    requires Find(s).Some? && Find(s).value.pointer.Some?
    requires fuel > 0
    requires var target := w.abspath(w.join(cfgDir, Find(s).value.path));
             && target != w.abspath(f) && w.abspath(target) in w.files
             && SubInclude(w, FromPath(target), w.files[w.abspath(target)], cfgDir, fuel - 1) == Ok(doc)
    ensures var keys := Split(Find(s).value.pointer.value, '/');
            var r := SubInclude(w, FromPath(f), Str(s), cfgDir, fuel);
            && (r.Ok? <==> AllKeysPresent(doc, keys))
            && (r.Ok? ==> r.value == match LastNonEmpty(keys)
                                     case None => Str(s)
                                     case Some(k) =>
                                       var v := Lookup(doc.members, k).value;
                                       if v == Null then Str(s) else v)
  {
    DirectiveLeafTruthy(s);
    var target := w.abspath(w.join(cfgDir, Find(s).value.path));
    assert SubInclude(w, FromPath(f), Str(s), cfgDir, fuel) == PatternMatch(w, FromPath(f), s, cfgDir, fuel);
    assert GetJsonData(w, FromPath(target), true, cfgDir, false, map[], fuel - 1) == Ok(Loaded(doc, true));
    SelectLastKey(doc, Split(Find(s).value.pointer.value, '/'));
  }

  // ---- The recursion budget is only a bound ----

  /**
   * A result that did not run out of budget is the result with any larger budget:
   * the budget stands for Python's recursion limit and decides nothing else.
   */
  lemma {:induction false} SubIncludeFuel(w: World, inFile: Source, data: Json, cfgDir: string, fuel: nat, more: nat)
    requires fuel <= more
    requires SubInclude(w, inFile, data, cfgDir, fuel) != Err(RecursionLimit)
    ensures SubInclude(w, inFile, data, cfgDir, more) == SubInclude(w, inFile, data, cfgDir, fuel)
    decreases fuel, 0, data, 2
  {
    if Truthy(data) {
      match data
      case Obj(ms) => MembersFuel(w, inFile, data, 0, cfgDir, fuel, more);
      case Arr(xs) => ItemsFuel(w, inFile, data, 0, cfgDir, fuel, more);
      case Str(s) => PatternMatchFuel(w, inFile, s, cfgDir, fuel, more);
      case _ =>
    }
  }

  lemma {:induction false} MembersFuel(w: World, inFile: Source, j: Json, i: nat, cfgDir: string, fuel: nat, more: nat)
    requires j.Obj? && i <= |j.members| && fuel <= more
    requires SubIncludeMembers(w, inFile, j, i, cfgDir, fuel) != Err(RecursionLimit)
    ensures SubIncludeMembers(w, inFile, j, i, cfgDir, more) == SubIncludeMembers(w, inFile, j, i, cfgDir, fuel)
    decreases fuel, 0, j, 1, |j.members| - i
  {
    if i < |j.members| {
      var v := SubInclude(w, inFile, j.members[i].1, cfgDir, fuel);
      if v != Err(RecursionLimit) {
        SubIncludeFuel(w, inFile, j.members[i].1, cfgDir, fuel, more);
        if v.Ok? {
          MembersFuel(w, inFile, j, i + 1, cfgDir, fuel, more);
        }
      }
    }
  }

  lemma {:induction false} ItemsFuel(w: World, inFile: Source, j: Json, i: nat, cfgDir: string, fuel: nat, more: nat)
    requires j.Arr? && i <= |j.items| && fuel <= more
    requires SubIncludeItems(w, inFile, j, i, cfgDir, fuel) != Err(RecursionLimit)
    ensures SubIncludeItems(w, inFile, j, i, cfgDir, more) == SubIncludeItems(w, inFile, j, i, cfgDir, fuel)
    decreases fuel, 0, j, 1, |j.items| - i
  {
    if i < |j.items| {
      var v := SubInclude(w, inFile, j.items[i], cfgDir, fuel);
      if v != Err(RecursionLimit) {
        SubIncludeFuel(w, inFile, j.items[i], cfgDir, fuel, more);
        if v.Ok? {
          ItemsFuel(w, inFile, j, i + 1, cfgDir, fuel, more);
        }
      }
    }
  }

  lemma {:induction false} PatternMatchFuel(w: World, inFile: Source, s: string, cfgDir: string, fuel: nat, more: nat)
    requires fuel <= more
    requires PatternMatch(w, inFile, s, cfgDir, fuel) != Err(RecursionLimit)
    ensures PatternMatch(w, inFile, s, cfgDir, more) == PatternMatch(w, inFile, s, cfgDir, fuel)
    decreases fuel, 0, Str(s), 1
  {
    match Find(s)
    case None =>
    case Some(d) =>
      var target := w.abspath(w.join(cfgDir, d.path));
      if inFile.FromPath? && target != w.abspath(inFile.path) && fuel > 0 {
        var loaded := GetJsonData(w, FromPath(target), true, cfgDir, false, map[], fuel - 1);
        if loaded != Err(RecursionLimit) {
          GetJsonDataFuel(w, FromPath(target), true, cfgDir, false, map[], fuel - 1, more - 1);
        }
      }
  }

  lemma {:induction false} GetJsonDataFuel(w: World, src: Source, parseInclude: bool, cfgDir: string,
                                           osEnv: bool, envOpt: Env, fuel: nat, more: nat)
    requires fuel <= more
    requires GetJsonData(w, src, parseInclude, cfgDir, osEnv, envOpt, fuel) != Err(RecursionLimit)
    ensures GetJsonData(w, src, parseInclude, cfgDir, osEnv, envOpt, more)
         == GetJsonData(w, src, parseInclude, cfgDir, osEnv, envOpt, fuel)
    decreases fuel, 1
  {
    var loaded := Read(w, src);
    if loaded.status && parseInclude {
      SubIncludeFuel(w, src, loaded.data, cfgDir, fuel, more);
    }
  }

  // ---- Loading a source ----

  /**
   * A dict source with include expansion and `os.environ` off, whose strings name
   * no variable of `env_opt`, comes back as it was, with status True.
   */
  lemma DictSourceUnchanged(w: World, fields: Members, cfgDir: string, envOpt: Env, fuel: nat)
    requires Inert(Obj(fields), envOpt)
    ensures GetJsonData(w, FromDict(fields), false, cfgDir, false, envOpt, fuel) == Ok(Loaded(Obj(fields), true))
  {
    SubEnvInert(Obj(fields), envOpt);
  }

  /**
   * The pointer `#/a/b` into `{"a": {"b": 42}}` does not reach 42: key "b" is looked
   * up in the whole document, which has no such key, and the call fails.
   */
  lemma PointerIndexesWholeDocument(w: World, main: string, cfgDir: string, target: string, s: string, doc: Json)
    requires s == "$include <other.json#/a/b>" && doc == Obj([("a", Obj([("b", Int(42))]))])
    requires target == w.abspath(w.join(cfgDir, "other.json")) && target != w.abspath(main)
    requires w.abspath(target) in w.files && w.files[w.abspath(target)] == doc
    ensures SubInclude(w, FromPath(main), Str(s), cfgDir, 1) == Err(KeyError("b"))
  {
    FindOtherAB(s);
    ExpandedUnchanged(w, target, cfgDir, doc);
    SelectAB(doc);
    PointerFails(w, main, cfgDir, target, s, "other.json", "a/b", doc, KeyError("b"));
  }

  /** One level of pointer include whose selection fails: the error escapes. */
  lemma PointerFails(w: World, main: string, cfgDir: string, target: string, s: string,
                     path: string, ptr: string, doc: Json, e: Error)
    requires Find(s) == Some(Directive(s, path, Some(ptr)))
    requires target == w.abspath(w.join(cfgDir, path)) && target != w.abspath(main)
    requires w.abspath(target) in w.files
    requires SubInclude(w, FromPath(target), w.files[w.abspath(target)], cfgDir, 0) == Ok(doc)
    requires Select(doc, Split(ptr, '/')) == Err(e)
    ensures SubInclude(w, FromPath(main), Str(s), cfgDir, 1) == Err(e)
  {
    PointerSelect(w, main, s, cfgDir, 1, doc);
  }

  lemma FindOtherAB(s: string)
    requires s == "$include <other.json#/a/b>"
    ensures Find(s) == Some(Directive(s, "other.json", Some("a/b")))
  {
    assert s == Spelling("other.json", Some("a/b"));
    FindPointer("other.json", "a/b");
  }

  lemma SelectAB(doc: Json)
    requires doc == Obj([("a", Obj([("b", Int(42))]))])
    ensures Select(doc, Split("a/b", '/')) == Err(KeyError("b"))
  {
    SplitAB();
    assert ["a", "b"][..1] == ["a"];
    assert ["a"][..0] == [];
    assert Select(doc, ["a"]) == Ok(Obj([("b", Int(42))]));
  }

  /** The pointer case of a leaf's expansion, in terms of `Select`. */
  lemma PointerSelect(w: World, f: string, s: string, cfgDir: string, fuel: nat, doc: Json)
    requires Find(s).Some? && Find(s).value.pointer.Some?
    requires fuel > 0
    requires var target := w.abspath(w.join(cfgDir, Find(s).value.path));
             && target != w.abspath(f) && w.abspath(target) in w.files
             && SubInclude(w, FromPath(target), w.files[w.abspath(target)], cfgDir, fuel - 1) == Ok(doc)
    ensures SubInclude(w, FromPath(f), Str(s), cfgDir, fuel) ==
              match Select(doc, Split(Find(s).value.pointer.value, '/'))
              case Ok(v) => Ok(if v == Null then Str(s) else v)
              case Err(e) => Err(e)
  {
    DirectiveLeafTruthy(s);
    var target := w.abspath(w.join(cfgDir, Find(s).value.path));
    assert SubInclude(w, FromPath(f), Str(s), cfgDir, fuel) == PatternMatch(w, FromPath(f), s, cfgDir, fuel);
    assert GetJsonData(w, FromPath(target), true, cfgDir, false, map[], fuel - 1) == Ok(Loaded(doc, true));
  }

  lemma SplitAB()
    ensures Split("a/b", '/') == ["a", "b"]
  {
    assert "a/b"[1..] == "/b";
    assert "/b"[1..] == "b";
    assert "b"[1..] == "";
    assert Split("", '/') == [""];
    assert [""][1..] == [];
    assert ['b'] + "" == "b";
    assert Split("b", '/') == ["b"];
    assert Split("/b", '/') == ["", "b"];
    assert ["", "b"][1..] == ["b"];
    assert ['a'] + "" == "a";
  }

  lemma ExpandedUnchanged(w: World, target: string, cfgDir: string, doc: Json)
    requires doc == Obj([("a", Obj([("b", Int(42))]))])
    ensures SubInclude(w, FromPath(target), doc, cfgDir, 0) == Ok(doc)
  {
    var inner := Obj([("b", Int(42))]);
    assert inner.members[0] == ("b", Int(42));
    assert doc.members[0] == ("a", inner);
    assert SubInclude(w, FromPath(target), Int(42), cfgDir, 0) == Ok(Int(42));
    assert SubIncludeMembers(w, FromPath(target), inner, 1, cfgDir, 0) == Ok([]);
    var v := SubInclude(w, FromPath(target), inner.members[0].1, cfgDir, 0);
    assert v == Ok(Int(42));
    var rest := SubIncludeMembers(w, FromPath(target), inner, 1, cfgDir, 0);
    assert rest == Ok([]);
    assert [("b", Int(42))] + [] == [("b", Int(42))];
    assert SubIncludeMembers(w, FromPath(target), inner, 0, cfgDir, 0) == Ok([(inner.members[0].0, v.value)] + rest.value);
    assert SubInclude(w, FromPath(target), inner, cfgDir, 0) == Ok(inner);
    assert SubIncludeMembers(w, FromPath(target), doc, 1, cfgDir, 0) == Ok([]);
    var v' := SubInclude(w, FromPath(target), doc.members[0].1, cfgDir, 0);
    assert v' == Ok(inner);
    var rest' := SubIncludeMembers(w, FromPath(target), doc, 1, cfgDir, 0);
    assert [("a", inner)] + [] == [("a", inner)];
    assert SubIncludeMembers(w, FromPath(target), doc, 0, cfgDir, 0) == Ok([(doc.members[0].0, v'.value)] + rest'.value);
  }

  /** Expanding a one-member dict is expanding its value. */
  lemma SingleMember(w: World, inFile: Source, k: string, v: Json, cfgDir: string, fuel: nat)
    ensures SubInclude(w, inFile, Obj([(k, v)]), cfgDir, fuel) ==
              match SubInclude(w, inFile, v, cfgDir, fuel)
              case Ok(x) => Ok(Obj([(k, x)]))
              case Err(e) => Err(e)
  {
    var j := Obj([(k, v)]);
    assert j.members[0] == (k, v);
    assert SubIncludeMembers(w, inFile, j, 1, cfgDir, fuel) == Ok([]);
    var x := SubInclude(w, inFile, v, cfgDir, fuel);
    if x.Ok? {
      assert [(k, x.value)] + [] == [(k, x.value)];
    }
  }

  /** The steps of a load with include expansion on, once the expansion has succeeded. */
  lemma LoadAfterInclude(w: World, src: Source, cfgDir: string, osEnv: bool, envOpt: Env, fuel: nat, v: Json)
    requires Read(w, src).status
    requires SubInclude(w, src, Read(w, src).data, cfgDir, fuel) == Ok(v)
    ensures var withOs := if osEnv then SubEnv(v, w.environ) else v;
            GetJsonData(w, src, true, cfgDir, osEnv, envOpt, fuel)
              == Ok(Loaded(if |envOpt| != 0 then SubEnv(withOs, envOpt) else withOs, true))
  {
  }
}
