/**
 * `JSONParser.__init__`: load the schema, load the configuration, merge every entry
 * of `merge_list` into it from left to right, then validate it, injecting the
 * schema's defaults first when `extend_defaults` is set.
 *
 * `jsonmerge.merge` is the parameter `merge`, and the Draft 4 validator is the
 * parameter `valid`, which takes the schema it was built with and the instance, and
 * says whether `validate` passes. A status of False from a load is only logged:
 * construction carries on with the empty string as the loaded value.
 */
module Pipeline {
  import opened JsonValues
  import opened Text
  import opened EnvSubst
  import opened IncludeDirective
  import opened Loader
  import opened Defaults

  /** The keyword arguments of `JSONParser(...)` that decide the outcome. */
  datatype Options = Options(
    mergeList: seq<Source>,
    extendDefaults: bool,
    parseInclude: bool,
    cfgDir: string,
    osEnv: bool,
    optEnv: Env)

  /** `self.schema` and `self.data` of a constructed parser. */
  datatype Config = Config(schema: Json, data: Json)

  /** Every source is loaded with the same options: `_get_json_data(x, parse_include, cfg_dir, _, os_env, opt_env)`. */
  function Load(w: World, src: Source, opts: Options, fuel: nat): Result<Loaded> {
    GetJsonData(w, src, opts.parseInclude, opts.cfgDir, opts.osEnv, opts.optEnv, fuel)
  }

  /** The loop over `merge_list`: load each entry and `data = merge(data, mergedata)`. */
  function MergeAll(w: World, data: Json, entries: seq<Source>, opts: Options,
                    merge: (Json, Json) -> Json, fuel: nat): Result<Json>
    decreases |entries|
  {
    if entries == [] then Ok(data)
    else
      var acc :- MergeAll(w, data, entries[..|entries| - 1], opts, merge, fuel);
      var m :- Load(w, entries[|entries| - 1], opts, fuel);
      Ok(merge(acc, m.data))
  }

  /** The schema the validator was built with when defaults are off: line 252 passes the `schema` argument itself. */
  function RawSchema(schemaSrc: Source, loaded: Json): (r: Json)
    ensures schemaSrc.FromDict? ==> r == loaded
  {
    match schemaSrc
    case FromPath(p) => Str(p)
    case FromDict(_) => loaded   // the same dict object, expanded in place by the load
    case FromOther(raw) => raw
  }

  /** The whole constructor: the parser's state, or the exception that escapes it. */
  function Build(w: World, schemaSrc: Source, cfgSrc: Source, opts: Options,
                 merge: (Json, Json) -> Json, valid: (Json, Json) -> bool, fuel: nat): Result<Config>
  {
    var s :- Load(w, schemaSrc, opts, fuel);
    var c :- Load(w, cfgSrc, opts, fuel);
    var merged :- MergeAll(w, c.data, opts.mergeList, opts, merge, fuel);
    if opts.extendDefaults then
      var filled :- ApplyDefaults(s.data, merged);
      if valid(s.data, filled) then Ok(Config(s.data, filled)) else Err(ValidationError)
    else if valid(RawSchema(schemaSrc, s.data), merged) then Ok(Config(s.data, merged))
    else Err(ValidationError)
  }

  /** The constructor's statements, with the loop over `merge_list`. */
  method Init(w: World, schemaSrc: Source, cfgSrc: Source, opts: Options,
              merge: (Json, Json) -> Json, valid: (Json, Json) -> bool, fuel: nat)
    returns (r: Result<Config>)
    ensures r == Build(w, schemaSrc, cfgSrc, opts, merge, valid, fuel)
  {
    var s := Load(w, schemaSrc, opts, fuel);
    if s.Err? {
      return Err(s.error);
    }
    var schema := s.value.data;
    var c := Load(w, cfgSrc, opts, fuel);
    if c.Err? {
      return Err(c.error);
    }
    var data := c.value.data;
    var entries := opts.mergeList;
    var i := 0;
    while i < |entries|
      invariant 0 <= i <= |entries|
      invariant MergeAll(w, c.value.data, entries[..i], opts, merge, fuel) == Ok(data)
    {
      MergeNext(w, c.value.data, entries, opts, merge, fuel, i, data);
      var m := Load(w, entries[i], opts, fuel);
      if m.Err? {
        MergeErrSticks(w, c.value.data, entries, opts, merge, fuel, i + 1);
        return Err(m.error);
      }
      data := merge(data, m.value.data);
      i := i + 1;
    }
    assert entries[..i] == entries;
    if opts.extendDefaults {
      var filled := ApplyDefaults(schema, data);
      if filled.Err? {
        return Err(filled.error);
      }
      data := filled.value;
      if !valid(schema, data) {
        return Err(ValidationError);
      }
    } else if !valid(RawSchema(schemaSrc, schema), data) {
      return Err(ValidationError);
    }
    return Ok(Config(schema, data));
  }

  lemma MergeNext(w: World, data: Json, entries: seq<Source>, opts: Options,
                  merge: (Json, Json) -> Json, fuel: nat, i: nat, acc: Json)
    requires i < |entries| && MergeAll(w, data, entries[..i], opts, merge, fuel) == Ok(acc)
    ensures MergeAll(w, data, entries[..i + 1], opts, merge, fuel) ==
              match Load(w, entries[i], opts, fuel)
              case Ok(m) => Ok(merge(acc, m.data))
              case Err(e) => Err(e)
  {
    assert entries[..i + 1][..i] == entries[..i];
  }

  lemma {:induction false} MergeErrSticks(w: World, data: Json, entries: seq<Source>, opts: Options,
                                          merge: (Json, Json) -> Json, fuel: nat, n: nat)
    requires n <= |entries|
    requires MergeAll(w, data, entries[..n], opts, merge, fuel).Err?
    ensures MergeAll(w, data, entries, opts, merge, fuel) == MergeAll(w, data, entries[..n], opts, merge, fuel)
    decreases |entries| - n
  {
    if n < |entries| {
      assert entries[..n + 1][..n] == entries[..n];
      MergeErrSticks(w, data, entries, opts, merge, fuel, n + 1);
    } else {
      assert entries[..n] == entries;
    }
  }

  /** A parser object: the fields `schema` and `data` that `__init__` sets. */
  class JsonParser {
    var schema: Json
    var data: Json

    constructor (config: Config)
      ensures schema == config.schema && data == config.data
    {
      schema := config.schema;
      data := config.data;
    }

    /** `JSONParser(schema, cfg, ...)`: a new parser, or the exception raised while building it. */
    static method Create(w: World, schemaSrc: Source, cfgSrc: Source, opts: Options,
                         merge: (Json, Json) -> Json, valid: (Json, Json) -> bool, fuel: nat)
      returns (r: Result<JsonParser>)
      ensures r.Ok? <==> Build(w, schemaSrc, cfgSrc, opts, merge, valid, fuel).Ok?
      ensures r.Err? ==> r.error == Build(w, schemaSrc, cfgSrc, opts, merge, valid, fuel).error
      ensures r.Ok? ==> fresh(r.value) &&
                        Config(r.value.schema, r.value.data) == Build(w, schemaSrc, cfgSrc, opts, merge, valid, fuel).value
    {
      var config := Init(w, schemaSrc, cfgSrc, opts, merge, valid, fuel);
      if config.Err? {
        return Err(config.error);
      }
      var p := new JsonParser(config.value);
      return Ok(p);
    }

    /** `get_cfg`. */
    function GetCfg(): Json
      reads this
    {
      data
    }

    /** `get_schema`. */
    function GetSchema(): Json
      reads this
    {
      schema
    }
  }

  // ---- The merge fold ----

  /** A left fold: `merge` is applied to the accumulated data and each entry in turn. */
  function FoldLeft(merge: (Json, Json) -> Json, acc: Json, xs: seq<Json>): Json
    decreases |xs|
  {
    if xs == [] then acc else merge(FoldLeft(merge, acc, xs[..|xs| - 1]), xs[|xs| - 1])
  }

  /** The first entry is merged first, into the configuration itself. */
  lemma {:induction false} FoldLeftCons(merge: (Json, Json) -> Json, acc: Json, x: Json, xs: seq<Json>)
    ensures FoldLeft(merge, acc, [x] + xs) == FoldLeft(merge, merge(acc, x), xs)
    decreases |xs|
  {
    if xs != [] {
      var init := xs[..|xs| - 1];
      assert ([x] + xs)[..|xs|] == [x] + init;
      FoldLeftCons(merge, acc, x, init);
    }
  }

  /** Merging a list in two parts is merging the first part, then the second into the result. */
  lemma {:induction false} FoldLeftAppend(merge: (Json, Json) -> Json, acc: Json, xs: seq<Json>, ys: seq<Json>)
    ensures FoldLeft(merge, acc, xs + ys) == FoldLeft(merge, FoldLeft(merge, acc, xs), ys)
    decreases |ys|
  {
    if ys == [] {
      assert xs + ys == xs;
    } else {
      var init := ys[..|ys| - 1];
      assert (xs + ys)[..|xs + ys| - 1] == xs + init;
      FoldLeftAppend(merge, acc, xs, init);
    }
  }

  /** Loading every entry of `merge_list` in order; the first failing load aborts. */
  function LoadAll(w: World, entries: seq<Source>, opts: Options, fuel: nat): (r: Result<seq<Json>>)
    ensures r.Ok? ==> |r.value| == |entries|
    decreases |entries|
  {
    if entries == [] then Ok([])
    else
      var ds :- LoadAll(w, entries[..|entries| - 1], opts, fuel);
      var m :- Load(w, entries[|entries| - 1], opts, fuel);
      Ok(ds + [m.data])
  }

  /** All loads succeed exactly when each entry loads, and then the i-th value is the i-th entry's data. */
  lemma {:induction false} LoadAllEach(w: World, entries: seq<Source>, opts: Options, fuel: nat)
    ensures LoadAll(w, entries, opts, fuel).Ok? <==> forall i | 0 <= i < |entries| :: Load(w, entries[i], opts, fuel).Ok?
    ensures LoadAll(w, entries, opts, fuel).Ok? ==>
              forall i | 0 <= i < |entries| :: LoadAll(w, entries, opts, fuel).value[i] == Load(w, entries[i], opts, fuel).value.data
    decreases |entries|
  {
    if entries != [] {
      var init := entries[..|entries| - 1];
      LoadAllEach(w, init, opts, fuel);
      assert forall i | 0 <= i < |init| :: init[i] == entries[i];
    }
  }

  /**
   * Merging is loading every entry, then folding `merge` over the loaded values from
   * left to right, starting from the configuration; the merge results never decide a load.
   */
  lemma {:induction false} MergeAllIsFold(w: World, data: Json, entries: seq<Source>, opts: Options,
                                          merge: (Json, Json) -> Json, fuel: nat)
    ensures MergeAll(w, data, entries, opts, merge, fuel) ==
              match LoadAll(w, entries, opts, fuel)
              case Ok(ds) => Ok(FoldLeft(merge, data, ds))
              case Err(e) => Err(e)
    decreases |entries|
  {
    if entries != [] {
      var init := entries[..|entries| - 1];
      MergeAllIsFold(w, data, init, opts, merge, fuel);
      var l := LoadAll(w, init, opts, fuel);
      if l.Ok? {
        var m := Load(w, entries[|entries| - 1], opts, fuel);
        if m.Ok? {
          var ds := l.value + [m.value.data];
          assert ds[..|ds| - 1] == l.value;
        }
      }
    }
  }

  // ---- The constructor ----

  /**
   * With `extend_defaults`, the result is the merged configuration with the schema's
   * defaults added, never overwriting a value, and it is what the validator accepted.
   */
  lemma BuildWithDefaults(w: World, schemaSrc: Source, cfgSrc: Source, opts: Options,
                          merge: (Json, Json) -> Json, valid: (Json, Json) -> bool, fuel: nat)
    requires opts.extendDefaults
    requires Build(w, schemaSrc, cfgSrc, opts, merge, valid, fuel).Ok?
    ensures var r := Build(w, schemaSrc, cfgSrc, opts, merge, valid, fuel).value;
            var c := Load(w, cfgSrc, opts, fuel).value.data;
            var merged := MergeAll(w, c, opts.mergeList, opts, merge, fuel).value;
            && r.schema == Load(w, schemaSrc, opts, fuel).value.data
            && ApplyDefaults(r.schema, merged) == Ok(r.data)
            && Extends(merged, r.data)
            && valid(r.schema, r.data)
  {
    var s := Load(w, schemaSrc, opts, fuel).value.data;
    var c := Load(w, cfgSrc, opts, fuel).value.data;
    var merged := MergeAll(w, c, opts.mergeList, opts, merge, fuel).value;
    ApplyDefaultsExtends(s, merged);
  }

  /**
   * Without `extend_defaults`, the result is the merged configuration itself, accepted
   * by a validator built from the `schema` argument as given.
   */
  lemma BuildWithoutDefaults(w: World, schemaSrc: Source, cfgSrc: Source, opts: Options,
                             merge: (Json, Json) -> Json, valid: (Json, Json) -> bool, fuel: nat)
    requires !opts.extendDefaults
    requires Load(w, schemaSrc, opts, fuel).Ok? && Load(w, cfgSrc, opts, fuel).Ok?
    requires LoadAll(w, opts.mergeList, opts, fuel).Ok?
    ensures var s := Load(w, schemaSrc, opts, fuel).value.data;
            var merged := FoldLeft(merge, Load(w, cfgSrc, opts, fuel).value.data, LoadAll(w, opts.mergeList, opts, fuel).value);
            Build(w, schemaSrc, cfgSrc, opts, merge, valid, fuel) ==
              if valid(RawSchema(schemaSrc, s), merged) then Ok(Config(s, merged)) else Err(ValidationError)
  {
    MergeAllIsFold(w, Load(w, cfgSrc, opts, fuel).value.data, opts.mergeList, opts, merge, fuel);
  }

  /**
   * A configuration file that does not exist is only logged: with nothing to merge
   * and defaults off, the empty string is handed to the validator as the configuration.
   */
  lemma MissingConfigFile(w: World, schemaSrc: Source, path: string, opts: Options,
                          merge: (Json, Json) -> Json, valid: (Json, Json) -> bool, fuel: nat)
    requires w.abspath(path) !in w.files
    requires opts.mergeList == [] && !opts.extendDefaults
    requires Load(w, schemaSrc, opts, fuel).Ok?
    ensures var s := Load(w, schemaSrc, opts, fuel).value.data;
            Build(w, schemaSrc, FromPath(path), opts, merge, valid, fuel) ==
              if valid(RawSchema(schemaSrc, s), Str("")) then Ok(Config(s, Str(""))) else Err(ValidationError)
  {
  }

  // ---- Order of the loading steps ----

  /**
   * Include expansion, then `os.environ`, then `opt_env`: a configuration including
   * a file that holds `"${A}"`, with `A` set to `${B}` in the environment and `B` set
   * to `ok` in `opt_env`, ends up holding `"ok"`.
   */
  lemma LoadOrderExample(w: World, main: string, cfgDir: string, inc: string)
    requires inc == w.abspath(w.join(cfgDir, "inc.json")) && inc != w.abspath(main)
    requires w.abspath(main) in w.files && w.abspath(inc) in w.files
    requires w.files[w.abspath(main)] == Obj([("v", Str("$include <inc.json>"))])
    requires w.files[w.abspath(inc)] == Str("${A}")
    requires w.environ == map["A" := "${B}"]
    ensures GetJsonData(w, FromPath(main), true, cfgDir, true, map["B" := "ok"], 1)
         == Ok(Loaded(Obj([("v", Str("ok"))]), true))
  {
    LeafExpands(w, main, cfgDir, inc);
    ChainAB(w.environ, map["B" := "ok"]);
    LoadOrder(w, main, cfgDir, "v", "$include <inc.json>", "${A}", map["B" := "ok"], "ok");
  }

  /**
   * A one-member configuration file whose string value s includes the string x:
   * what the load returns is x with `os.environ` and then `opt_env` substituted.
   */
  lemma LoadOrder(w: World, main: string, cfgDir: string, k: string, s: string, x: string, optEnv: Env, v: string)
    requires w.abspath(main) in w.files && w.files[w.abspath(main)] == Obj([(k, Str(s))])
    requires SubInclude(w, FromPath(main), Str(s), cfgDir, 1) == Ok(Str(x))
    requires |optEnv| != 0
    requires SubEnv(SubEnv(Obj([(k, Str(x))]), w.environ), optEnv) == Obj([(k, Str(v))])
    ensures GetJsonData(w, FromPath(main), true, cfgDir, true, optEnv, 1) == Ok(Loaded(Obj([(k, Str(v))]), true))
  {
    SingleMember(w, FromPath(main), k, Str(s), cfgDir, 1);
    LoadAfterInclude(w, FromPath(main), cfgDir, true, optEnv, 1, Obj([(k, Str(x))]));
  }

  lemma ChainAB(osEnv: Env, optEnv: Env)
    requires osEnv == map["A" := "${B}"] && optEnv == map["B" := "ok"]
    ensures SubEnv(SubEnv(Obj([("v", Str("${A}"))]), osEnv), optEnv) == Obj([("v", Str("ok"))])
  {
    assert "${" + "A" + "}" == "${A}";
    assert "${" + "B" + "}" == "${B}";
    EnvChain("v", "A", "B", "ok", osEnv, optEnv);
  }

  /** `os.environ` maps a to `${b}` and `opt_env` maps b to v: `"${a}"` becomes v. */
  lemma EnvChain(k: string, a: string, b: string, v: string, osEnv: Env, optEnv: Env)
    requires '\n' !in a && '\n' !in b
    requires a in osEnv && osEnv[a] == "${" + b + "}" && b in optEnv && optEnv[b] == v
    ensures SubEnv(SubEnv(Obj([(k, Str("${" + a + "}"))]), osEnv), optEnv) == Obj([(k, Str(v))])
  {
    VariableLeaf(k, a, osEnv);
    VariableLeaf(k, b, optEnv);
  }

  /** `{k: "${NAME}"}` becomes `{k: value of NAME}` when NAME is set and stays as it is otherwise. */
  lemma VariableLeaf(k: string, name: string, env: Env)
    requires '\n' !in name
    ensures SubEnv(Obj([(k, Str("${" + name + "}"))]), env)
         == Obj([(k, Str(if name in env then env[name] else "${" + name + "}"))])
  {
    SubEnvStrWholeToken(name, env);
    SubEnvOneMember(k, "${" + name + "}", env);
  }

  /**
   * The two substitutions do not commute: run in the other order, `opt_env` first,
   * the chain of EnvChain stops at `${b}`.
   */
  lemma SwappedOrder(k: string, a: string, b: string, v: string, osEnv: Env, optEnv: Env)
    requires '\n' !in a && '\n' !in b
    requires a in osEnv && osEnv[a] == "${" + b + "}" && a !in optEnv
    ensures SubEnv(SubEnv(Obj([(k, Str("${" + a + "}"))]), optEnv), osEnv) == Obj([(k, Str("${" + b + "}"))])
  {
    VariableLeaf(k, a, optEnv);
    VariableLeaf(k, a, osEnv);
  }

  /** With the environments of LoadOrderExample, the other order leaves `${B}` where the loader gives "ok". */
  lemma SwappedOrderExample(osEnv: Env, optEnv: Env)
    requires osEnv == map["A" := "${B}"] && optEnv == map["B" := "ok"]
    ensures SubEnv(SubEnv(Obj([("v", Str("${A}"))]), optEnv), osEnv) == Obj([("v", Str("${B}"))])
    ensures SubEnv(SubEnv(Obj([("v", Str("${A}"))]), optEnv), osEnv) != SubEnv(SubEnv(Obj([("v", Str("${A}"))]), osEnv), optEnv)
  {
    assert "${" + "A" + "}" == "${A}";
    assert "${" + "B" + "}" == "${B}";
    SwappedOrder("v", "A", "B", "ok", osEnv, optEnv);
    ChainAB(osEnv, optEnv);
    assert Str("${B}") != Str("ok");
  }

  lemma LeafExpands(w: World, main: string, cfgDir: string, inc: string)
    requires inc == w.abspath(w.join(cfgDir, "inc.json")) && inc != w.abspath(main)
    requires w.abspath(inc) in w.files && w.files[w.abspath(inc)] == Str("${A}")
    ensures SubInclude(w, FromPath(main), Str("$include <inc.json>"), cfgDir, 1) == Ok(Str("${A}"))
  {
    assert "$include <inc.json>" == Spelling("inc.json", None);
    assert !Occurs(Keyword, "${A}");
    PlainStringInclude(w, main, cfgDir, inc, "inc.json", "${A}");
  }

  /** A leaf that includes a file holding a string with no directive becomes that string. */
  lemma PlainStringInclude(w: World, main: string, cfgDir: string, inc: string, path: string, x: string)
    requires EndsWithJson(path) && '\n' !in path
    requires inc == w.abspath(w.join(cfgDir, path)) && inc != w.abspath(main)
    requires w.abspath(inc) in w.files && w.files[w.abspath(inc)] == Str(x)
    requires !Occurs(Keyword, x)
    ensures SubInclude(w, FromPath(main), Str(Spelling(path, None)), cfgDir, 1) == Ok(Str(x))
  {
    var s := Spelling(path, None);
    FindPlain(path);
    NoDirectiveLeaf(w, FromPath(inc), x, cfgDir, 0);
    WholeInclude(w, main, s, cfgDir, 1);
  }

  // ---- End-to-end examples ----

  /**
   * `{"host": "${HOST}"}` passed as a dict with `opt_env` `{"HOST": "example.com"}`
   * loads as `{"host": "example.com"}`; with HOST unset it loads unchanged.
   */
  lemma HostExample(w: World, cfgDir: string, envOpt: Env, fuel: nat)
    ensures var cfg := [("host", Str("${HOST}"))];
            GetJsonData(w, FromDict(cfg), false, cfgDir, false, envOpt, fuel) ==
              Ok(Loaded(Obj([("host", Str(if "HOST" in envOpt then envOpt["HOST"] else "${HOST}"))]), true))
  {
    assert "${" + "HOST" + "}" == "${HOST}";
    OneVariable(w, "host", "HOST", cfgDir, envOpt, fuel);
  }

  /** A dict `{k: "${NAME}"}` loaded with `opt_env`: NAME is replaced when `opt_env` sets it. */
  lemma OneVariable(w: World, k: string, name: string, cfgDir: string, envOpt: Env, fuel: nat)
    requires '\n' !in name
    ensures var token := "${" + name + "}";
            GetJsonData(w, FromDict([(k, Str(token))]), false, cfgDir, false, envOpt, fuel) ==
              Ok(Loaded(Obj([(k, Str(if name in envOpt then envOpt[name] else token))]), true))
  {
    var token := "${" + name + "}";
    var j := Obj([(k, Str(token))]);
    if name in envOpt {
      VariableLeaf(k, name, envOpt);
    } else {
      SubEnvStrWholeToken(name, envOpt);
      if |envOpt| != 0 {
        assert j.members[0].1 == Str(token);
        assert SubEnv(j, envOpt).members[0] == (k, Str(token));
        assert SubEnv(j, envOpt).members == j.members;
      }
    }
  }

  /**
   * Schema `{"type": "object", "properties": {"port": {"type": "integer", "default": 8080}}}`
   * and configuration `{}`, both passed as dicts, with defaults on and nothing to merge:
   * the configuration handed to the validator, and kept, is `{"port": 8080}`.
   */
  lemma PortDefaultExample(w: World, opts: Options, merge: (Json, Json) -> Json, valid: (Json, Json) -> bool, fuel: nat)
    requires opts.mergeList == [] && opts.extendDefaults && !opts.parseInclude && !opts.osEnv && opts.optEnv == map[]
    ensures var port := Obj([("type", Str("integer")), ("default", Int(8080))]);
            var schema := [("type", Str("object")), ("properties", Obj([("port", port)]))];
            var filled := Obj([("port", Int(8080))]);
            Build(w, FromDict(schema), FromDict([]), opts, merge, valid, fuel) ==
              if valid(Obj(schema), filled) then Ok(Config(Obj(schema), filled)) else Err(ValidationError)
  {
    var port := Obj([("type", Str("integer")), ("default", Int(8080))]);
    var schema := [("type", Str("object")), ("properties", Obj([("port", port)]))];
    SubEnvEmpty(Obj(schema));
    SubEnvEmpty(Obj([]));
    assert Load(w, FromDict(schema), opts, fuel) == Ok(Loaded(Obj(schema), true));
    assert Load(w, FromDict([]), opts, fuel) == Ok(Loaded(Obj([]), true));
    PortDefaults(Obj(schema));
  }

  lemma PortDefaults(schema: Json)
    requires schema == Obj([("type", Str("object")),
                            ("properties", Obj([("port", Obj([("type", Str("integer")), ("default", Int(8080))]))]))])
    ensures ApplyDefaults(schema, Obj([])) == Ok(Obj([("port", Int(8080))]))
  {
    var port := Obj([("type", Str("integer")), ("default", Int(8080))]);
    var props := [("port", port)];
    assert schema.members[0].0 == "type" && schema.members[1].0 == "properties";
    assert IndexOf(schema.members, "properties") == 1;
    assert !HasKey(schema.members, "$ref");
    assert port.members[0].0 == "type" && port.members[1].0 == "default";
    assert IndexOf(port.members, "default") == 1;
    assert Defaulting(port) && DefaultOf(port) == Int(8080);
    assert props[..0] == [];
    assert SetDefaults(props[..0], Obj([])) == Ok(Obj([]));
    assert SetDefault([], "port", Int(8080)) == [("port", Int(8080))];
    assert SetDefaults(props, Obj([])) == Ok(Obj([("port", Int(8080))]));
    var inst := Obj([("port", Int(8080))]);
    assert inst.members[0].0 == "port";
    assert ApplyDefaults(port, Int(8080)) == Ok(Int(8080)) by {
      assert IndexOf(port.members, "properties") < 0;
    }
    assert Assign(inst.members, "port", Int(8080)) == inst.members;
    assert Descend(schema, 1, inst, 0) == Ok(inst);
  }
}
