/**
 * `_extend_with_default`: a Draft 4 validator whose `properties` keyword first runs
 * `set_defaults`, which calls `instance.setdefault(property, subschema["default"])`
 * for every property whose subschema mentions "default", and then descends into
 * the properties the instance holds, as the stock `properties` keyword does.
 *
 * The instance is a value here: the result of a step is the instance after Python
 * mutated it in place.
 */
module Defaults {
  import opened JsonValues
  import opened Text

  /** `"default" in subschema`: a key test on a dict, a substring test on a str, a list membership test. */
  function HasDefault(sub: Json): (r: Result<bool>)
    ensures r.Err? ==> r.error == TypeError
    ensures r.Ok? <==> sub.Obj? || sub.Str? || sub.Arr?
    ensures sub.Obj? ==> r == Ok(HasKey(sub.members, "default"))
  {
    match sub
    case Obj(ms) => Ok(HasKey(ms, "default"))
    case Str(s) => Ok(Occurs("default", s))
    case Arr(xs) => Ok(Str("default") in xs)
    case _ => Err(TypeError)
  }

  /** A subschema that is a dict holding "default": the ones whose default can be injected. */
  predicate Defaulting(sub: Json) {
    sub.Obj? && HasKey(sub.members, "default")
  }

  function DefaultOf(sub: Json): Json
    requires Defaulting(sub)
  {
    Lookup(sub.members, "default").value
  }

  /** The properties whose default can be injected. */
  function Defaulted(props: Members): set<string> {
    set i | 0 <= i < |props| && Defaulting(props[i].1) :: props[i].0
  }

  /**
   * One pass of the loop of `set_defaults`. The `in` test runs first; a list instance
   * is skipped; `instance.setdefault` fails on anything but a dict, and
   * `subschema["default"]` on anything but a dict.
   */
  function SetDefaultStep(inst: Json, property: string, sub: Json): Result<Json> {
    var has :- HasDefault(sub);
    if !has || inst.Arr? then Ok(inst)
    else if !inst.Obj? then Err(AttributeError)
    else if !sub.Obj? then Err(TypeError)
    else Ok(Obj(SetDefault(inst.members, property, DefaultOf(sub))))
  }

  /** The loop of `set_defaults` over `properties.items()`, in order. */
  function SetDefaults(props: Members, inst: Json): Result<Json>
    decreases |props|
  {
    if props == [] then Ok(inst)
    else
      var before :- SetDefaults(props[..|props| - 1], inst);
      SetDefaultStep(before, props[|props| - 1].0, props[|props| - 1].1)
  }

  /** `set_defaults` on the `properties` value of a schema: `.items()` needs a dict. */
  function SetDefaultsOn(properties: Json, inst: Json): (r: Result<Json>)
    ensures !properties.Obj? ==> r == Err(AttributeError)
  {
    if properties.Obj? then SetDefaults(properties.members, inst) else Err(AttributeError)
  }

  /** The loop of `set_defaults`, statement by statement. */
  method SetDefaultsLoop(properties: Json, instance: Json) returns (r: Result<Json>)
    ensures r == SetDefaultsOn(properties, instance)
  {
    if !properties.Obj? {
      return Err(AttributeError);
    }
    var props := properties.members;
    var cur := instance;
    var i := 0;
    while i < |props|
      invariant 0 <= i <= |props|
      invariant SetDefaults(props[..i], instance) == Ok(cur)
    {
      var (property, subschema) := props[i];
      SetDefaultsNext(props, instance, i, cur);
      var has := HasDefault(subschema);
      if has.Err? {
        SetDefaultsErrSticks(props, instance, i + 1);
        return Err(TypeError);
      }
      if has.value && !cur.Arr? {
        if !cur.Obj? {
          SetDefaultsErrSticks(props, instance, i + 1);
          return Err(AttributeError);
        }
        if !subschema.Obj? {
          SetDefaultsErrSticks(props, instance, i + 1);
          return Err(TypeError);
        }
        cur := Obj(SetDefault(cur.members, property, DefaultOf(subschema)));
      }
      i := i + 1;
    }
    assert props[..i] == props;
    return Ok(cur);
  }

  lemma SetDefaultsNext(props: Members, inst: Json, i: nat, cur: Json)
    requires i < |props| && SetDefaults(props[..i], inst) == Ok(cur)
    ensures SetDefaults(props[..i + 1], inst) == SetDefaultStep(cur, props[i].0, props[i].1)
  {
    assert props[..i + 1][..i] == props[..i];
  }

  /** A failing pass ends the loop: the exception escapes `set_defaults`. */
  lemma {:induction false} SetDefaultsErrSticks(props: Members, inst: Json, n: nat)
    requires n <= |props|
    requires SetDefaults(props[..n], inst).Err?
    ensures SetDefaults(props, inst) == SetDefaults(props[..n], inst)
    decreases |props| - n
  {
    if n < |props| {
      assert props[..n + 1][..n] == props[..n];
      SetDefaultsErrSticks(props, inst, n + 1);
    } else {
      assert props[..n] == props;
    }
  }

  // ---- What `set_defaults` does to a dict instance ----

  lemma DefaultedSnoc(props: Members)
    requires props != []
    ensures var last := props[|props| - 1];
            Defaulted(props) == Defaulted(props[..|props| - 1]) + (if Defaulting(last.1) then {last.0} else {})
  {
    var init := props[..|props| - 1];
    var last := props[|props| - 1];
    forall x ensures x in Defaulted(props) <==> x in Defaulted(init) + (if Defaulting(last.1) then {last.0} else {}) {
      if x in Defaulted(init) {
        var j :| 0 <= j < |init| && Defaulting(init[j].1) && init[j].0 == x;
        assert props[j] == init[j];
      }
      if x in Defaulted(props) {
        var j :| 0 <= j < |props| && Defaulting(props[j].1) && props[j].0 == x;
        if j < |init| { assert props[j] == init[j]; }
      }
    }
  }

  /** A successful pass on a dict instance: `setdefault` when the subschema is a defaulting dict. */
  lemma StepDict(bm: Members, p: string, sub: Json)
    requires SetDefaultStep(Obj(bm), p, sub).Ok?
    ensures SetDefaultStep(Obj(bm), p, sub).value ==
              Obj(if Defaulting(sub) then SetDefault(bm, p, DefaultOf(sub)) else bm)
  {
    if !Defaulting(sub) {
      assert HasDefault(sub) == Ok(false) by {
        if HasDefault(sub) == Ok(true) { assert sub.Obj?; }
      }
    }
  }

  /**
   * On a dict instance, a successful `set_defaults` keeps every member where it was
   * and only appends: the keys afterwards are the old keys plus the defaulted properties.
   */
  lemma {:induction false} SetDefaultsDict(props: Members, ms: Members)
    requires SetDefaults(props, Obj(ms)).Ok?
    ensures var r := SetDefaults(props, Obj(ms)).value;
            && r.Obj? && |ms| <= |r.members| && r.members[..|ms|] == ms
            && KeySet(r.members) == KeySet(ms) + Defaulted(props)
    decreases |props|
  {
    if props == [] {
      assert ms[..|ms|] == ms;
    } else {
      var init := props[..|props| - 1];
      var (p, sub) := props[|props| - 1];
      SetDefaultsDict(init, ms);
      var bm := SetDefaults(init, Obj(ms)).value.members;
      DefaultedSnoc(props);
      StepPrefix(bm, ms, p, sub);
    }
  }

  /** One successful pass on a dict instance that starts with ms still starts with ms. */
  lemma StepPrefix(bm: Members, ms: Members, p: string, sub: Json)
    requires |ms| <= |bm| && bm[..|ms|] == ms
    requires SetDefaultStep(Obj(bm), p, sub).Ok?
    ensures var r := SetDefaultStep(Obj(bm), p, sub).value;
            && r.Obj? && |ms| <= |r.members| && r.members[..|ms|] == ms
            && KeySet(r.members) == KeySet(bm) + (if Defaulting(sub) then {p} else {})
  {
    StepDict(bm, p, sub);
    if Defaulting(sub) && !HasKey(bm, p) {
      assert (bm + [(p, DefaultOf(sub))])[..|ms|] == bm[..|ms|];
    }
  }

  /** Every member already in a dict instance keeps its value. */
  lemma SetDefaultsKeeps(props: Members, ms: Members, k: string)
    requires SetDefaults(props, Obj(ms)).Ok? && HasKey(ms, k)
    ensures var r := SetDefaults(props, Obj(ms)).value;
            r.Obj? && Lookup(r.members, k) == Lookup(ms, k)
  {
    SetDefaultsDict(props, ms);
    var rm := SetDefaults(props, Obj(ms)).value.members;
    assert rm == ms + rm[|ms|..];
    LookupExtend(ms, rm[|ms|..], k);
  }

  /** Every defaulted property the dict instance lacked now holds its subschema's default. */
  lemma {:induction false} SetDefaultsAdds(props: Members, ms: Members)
    requires SetDefaults(props, Obj(ms)).Ok? && DistinctKeys(props)
    ensures var r := SetDefaults(props, Obj(ms)).value;
            && r.Obj?
            && forall i | 0 <= i < |props| && Defaulting(props[i].1) && !HasKey(ms, props[i].0) ::
                 Lookup(r.members, props[i].0) == Some(DefaultOf(props[i].1))
    decreases |props|
  {
    if props != [] {
      var r := SetDefaults(props, Obj(ms)).value;
      var init := props[..|props| - 1];
      var (p, sub) := props[|props| - 1];
      assert DistinctKeys(init);
      SetDefaultsAdds(init, ms);
      SetDefaultsDict(init, ms);
      var bm := SetDefaults(init, Obj(ms)).value.members;
      StepDict(bm, p, sub);
      forall i | 0 <= i < |props| && Defaulting(props[i].1) && !HasKey(ms, props[i].0)
        ensures Lookup(r.members, props[i].0) == Some(DefaultOf(props[i].1))
      {
        if i < |init| {
          assert init[i] == props[i];
          assert props[i].0 != p;
        } else {
          HasKeyKeySet(ms, p);
          HasKeyKeySet(bm, p);
          assert p !in Defaulted(init);
        }
      }
    }
  }

  /** A pass of the loop leaves a dict instance a dict, and succeeds exactly on a well-typed subschema. */
  predicate StepOk(sub: Json) {
    HasDefault(sub).Ok? && (HasDefault(sub).value ==> sub.Obj?)
  }

  /**
   * `set_defaults` on a dict fails exactly when some subschema does not support `in`, or
   * mentions "default" without being a dict.
   */
  lemma {:induction false} SetDefaultsDictOk(props: Members, ms: Members)
    ensures SetDefaults(props, Obj(ms)).Ok? <==> forall i | 0 <= i < |props| :: StepOk(props[i].1)
    decreases |props|
  {
    if props != [] {
      var init := props[..|props| - 1];
      SetDefaultsDictOk(init, ms);
      assert forall i | 0 <= i < |init| :: init[i] == props[i];
      if SetDefaults(init, Obj(ms)).Ok? {
        SetDefaultsDict(init, ms);
      }
    }
  }

  /** A list instance is never touched; only a subschema without `in` makes the loop fail. */
  lemma {:induction false} SetDefaultsList(props: Members, xs: seq<Json>)
    ensures SetDefaults(props, Arr(xs)) ==
              if forall i | 0 <= i < |props| :: HasDefault(props[i].1).Ok? then Ok(Arr(xs)) else Err(TypeError)
    decreases |props|
  {
    if props != [] {
      var init := props[..|props| - 1];
      SetDefaultsList(init, xs);
      assert forall i | 0 <= i < |init| :: init[i] == props[i];
    }
  }

  /** An instance that is neither a dict nor a list is returned as it is unless a default applies, which fails. */
  lemma {:induction false} SetDefaultsScalar(props: Members, v: Json)
    requires !v.Obj? && !v.Arr?
    ensures SetDefaults(props, v).Ok? <==> forall i | 0 <= i < |props| :: HasDefault(props[i].1) == Ok(false)
    ensures SetDefaults(props, v).Ok? ==> SetDefaults(props, v).value == v
    decreases |props|
  {
    if props != [] {
      var init := props[..|props| - 1];
      SetDefaultsScalar(init, v);
      assert forall i | 0 <= i < |init| :: init[i] == props[i];
    }
  }

  // ---- Descent through `properties` ----

  /**
   * The defaulting validator applied to an instance: for a dict schema without `$ref`
   * that has `properties`, `set_defaults` runs on the instance, and, for a dict
   * instance, every property the instance holds is defaulted in turn against its
   * subschema. The other keywords of the schema inject nothing and are left to the
   * validator.
   */
  function ApplyDefaults(schema: Json, inst: Json): Result<Json>
    decreases schema, 1
  {
    if !schema.Obj? || HasKey(schema.members, "$ref") then Ok(inst)
    else
      var i := IndexOf(schema.members, "properties");
      if i < 0 then Ok(inst)
      else
        var withDefaults :- SetDefaultsOn(schema.members[i].1, inst);
        if !withDefaults.Obj? then Ok(withDefaults)
        else Descend(schema, i, withDefaults, 0)
  }

  /** The loop of the stock `properties` keyword, from property k on: `descend(instance[property], subschema)`. */
  function Descend(schema: Json, i: nat, inst: Json, k: nat): Result<Json>
    requires schema.Obj? && i < |schema.members| && schema.members[i].1.Obj?
    requires inst.Obj? && k <= |schema.members[i].1.members|
    decreases schema, 0, |schema.members[i].1.members| - k
  {
    var props := schema.members[i].1.members;
    if k == |props| then Ok(inst)
    else
      var (p, sub) := props[k];
      match Lookup(inst.members, p)
      case None => Descend(schema, i, inst, k + 1)
      case Some(v) =>
        var v' :- ApplyDefaults(sub, v);
        Descend(schema, i, Obj(Assign(inst.members, p, v')), k + 1)
  }

  /**
   * b grows a: every member of a dict keeps its key and its place, and its value is
   * grown in turn; members may be appended; anything that is not a dict is unchanged.
   */
  predicate Extends(a: Json, b: Json) {
    match a
    case Obj(ms) =>
      b.Obj? && |ms| <= |b.members| &&
      forall i | 0 <= i < |ms| :: b.members[i].0 == ms[i].0 && Extends(ms[i].1, b.members[i].1)
    case _ => b == a
  }

  lemma {:induction false} ExtendsRefl(a: Json)
    ensures Extends(a, a)
  {
    match a
    case Obj(ms) =>
      forall i | 0 <= i < |ms| ensures Extends(ms[i].1, ms[i].1) { ExtendsRefl(ms[i].1); }
    case _ =>
  }

  lemma {:induction false} ExtendsTrans(a: Json, b: Json, c: Json)
    requires Extends(a, b) && Extends(b, c)
    ensures Extends(a, c)
  {
    match a
    case Obj(ms) =>
      forall i | 0 <= i < |ms| ensures Extends(ms[i].1, c.members[i].1) {
        ExtendsTrans(ms[i].1, b.members[i].1, c.members[i].1);
      }
    case _ =>
  }

  /** Appending members grows a dict. */
  lemma ExtendsAppend(ms: Members, more: Members)
    ensures Extends(Obj(ms), Obj(ms + more))
  {
    forall i | 0 <= i < |ms| ensures Extends(ms[i].1, (ms + more)[i].1) {
      assert (ms + more)[i] == ms[i];
      ExtendsRefl(ms[i].1);
    }
  }

  /** Defaults are only ever added: no value already in the configuration is overwritten, at any depth. */
  lemma {:induction false} ApplyDefaultsExtends(schema: Json, inst: Json)
    requires ApplyDefaults(schema, inst).Ok?
    ensures Extends(inst, ApplyDefaults(schema, inst).value)
    decreases schema, 1
  {
    if !schema.Obj? || HasKey(schema.members, "$ref") {
      ExtendsRefl(inst);
    } else {
      var i := IndexOf(schema.members, "properties");
      if i < 0 {
        ExtendsRefl(inst);
      } else {
        var props := schema.members[i].1;
        var withDefaults := SetDefaultsOn(props, inst).value;
        assert props.Obj?;
        match inst
        case Obj(ms) =>
          SetDefaultsDict(props.members, ms);
          var wm := withDefaults.members;
          assert wm == wm[..|ms|] + wm[|ms|..];
          ExtendsAppend(ms, wm[|ms|..]);
          DescendExtends(schema, i, withDefaults, 0);
          ExtendsTrans(inst, withDefaults, ApplyDefaults(schema, inst).value);
        case Arr(xs) =>
          SetDefaultsList(props.members, xs);
          ExtendsRefl(inst);
        case _ =>
          SetDefaultsScalar(props.members, inst);
          ExtendsRefl(inst);
      }
    }
  }

  lemma {:induction false} DescendExtends(schema: Json, i: nat, inst: Json, k: nat)
    requires schema.Obj? && i < |schema.members| && schema.members[i].1.Obj?
    requires inst.Obj? && k <= |schema.members[i].1.members|
    requires Descend(schema, i, inst, k).Ok?
    ensures Extends(inst, Descend(schema, i, inst, k).value)
    decreases schema, 0, |schema.members[i].1.members| - k
  {
    var props := schema.members[i].1.members;
    if k == |props| {
      ExtendsRefl(inst);
    } else {
      var (p, sub) := props[k];
      match Lookup(inst.members, p)
      case None =>
        DescendExtends(schema, i, inst, k + 1);
      case Some(v) =>
        ApplyDefaultsExtends(sub, v);
        var v' := ApplyDefaults(sub, v).value;
        var next := Obj(Assign(inst.members, p, v'));
        AssignExtends(inst.members, p, v');
        assert Descend(schema, i, inst, k) == Descend(schema, i, next, k + 1);
        DescendExtends(schema, i, next, k + 1);
        ExtendsTrans(inst, next, Descend(schema, i, next, k + 1).value);
    }
  }

  /** Writing back a grown value under an existing key grows the dict. */
  lemma AssignExtends(ms: Members, p: string, v': Json)
    requires HasKey(ms, p) && Extends(Lookup(ms, p).value, v')
    ensures Extends(Obj(ms), Obj(Assign(ms, p, v')))
  {
    var idx := IndexOf(ms, p);
    var r := Assign(ms, p, v');
    forall j | 0 <= j < |ms| ensures r[j].0 == ms[j].0 && Extends(ms[j].1, r[j].1) {
      if j != idx { ExtendsRefl(ms[j].1); }
    }
  }

  // ---- Examples ----

  /** `{"properties": {"x": {"default": 5}}}` adds `"x": 5` to `{}` and leaves `{"x": 7}` alone. */
  lemma DefaultExample()
    ensures var schema := Obj([("properties", Obj([("x", Obj([("default", Int(5))]))]))]);
            && ApplyDefaults(schema, Obj([])) == Ok(Obj([("x", Int(5))]))
            && ApplyDefaults(schema, Obj([("x", Int(7))])) == Ok(Obj([("x", Int(7))]))
  {
    var schema := Obj([("properties", Obj([("x", Obj([("default", Int(5))]))]))]);
    DefaultAdded(schema, "x", Int(5));
    DefaultKept(schema, "x", Int(5), Int(7));
  }

  /** A schema whose only keyword is `properties`. */
  lemma PropertiesOnly(schema: Json, inst: Json)
    requires schema.Obj? && |schema.members| == 1 && schema.members[0].0 == "properties"
    requires schema.members[0].1.Obj?
    ensures ApplyDefaults(schema, inst) ==
              match SetDefaults(schema.members[0].1.members, inst)
              case Err(e) => Err(e)
              case Ok(w) => if w.Obj? then Descend(schema, 0, w, 0) else Ok(w)
  {
    assert !HasKey(schema.members, "$ref");
    assert IndexOf(schema.members, "properties") == 0;
  }

  lemma SingleSetDefaults(k: string, sub: Json, inst: Json)
    ensures SetDefaults([(k, sub)], inst) == SetDefaultStep(inst, k, sub)
  {
    assert [(k, sub)][..0] == [];
  }

  /** `{"default": d}` has a default and no `properties`, so descending into it changes nothing. */
  lemma DefaultLeaf(sub: Json, d: Json, v: Json)
    requires sub == Obj([("default", d)])
    ensures HasDefault(sub) == Ok(true) && DefaultOf(sub) == d
    ensures ApplyDefaults(sub, v) == Ok(v)
  {
    assert sub.members[0].0 == "default";
    assert IndexOf(sub.members, "properties") < 0;
  }

  /** Descending into the one property k of the schema, present with value v. */
  lemma DescendLeaf(schema: Json, k: string, d: Json, v: Json)
    requires schema == Obj([("properties", Obj([(k, Obj([("default", d)]))]))])
    ensures Descend(schema, 0, Obj([(k, v)]), 0) == Ok(Obj([(k, v)]))
  {
    var inst := Obj([(k, v)]);
    assert schema.members[0].1.members[0] == (k, Obj([("default", d)]));
    assert inst.members[0].0 == k;
    assert Lookup(inst.members, k) == Some(v);
    DefaultLeaf(Obj([("default", d)]), d, v);
    assert Assign(inst.members, k, v) == inst.members;
  }

  /** A missing property is filled in with its default. */
  lemma DefaultAdded(schema: Json, k: string, d: Json)
    requires schema == Obj([("properties", Obj([(k, Obj([("default", d)]))]))])
    ensures ApplyDefaults(schema, Obj([])) == Ok(Obj([(k, d)]))
  {
    var sub := Obj([("default", d)]);
    PropertiesOnly(schema, Obj([]));
    SingleSetDefaults(k, sub, Obj([]));
    DefaultLeaf(sub, d, d);
    assert SetDefault([], k, d) == [(k, d)];
    DescendLeaf(schema, k, d, d);
  }

  /** A property already present keeps its value. */
  lemma DefaultKept(schema: Json, k: string, d: Json, v: Json)
    requires schema == Obj([("properties", Obj([(k, Obj([("default", d)]))]))])
    ensures ApplyDefaults(schema, Obj([(k, v)])) == Ok(Obj([(k, v)]))
  {
    var sub := Obj([("default", d)]);
    var inst := Obj([(k, v)]);
    PropertiesOnly(schema, inst);
    SingleSetDefaults(k, sub, inst);
    DefaultLeaf(sub, d, v);
    assert inst.members[0].0 == k;
    assert SetDefault(inst.members, k, d) == inst.members;
    DescendLeaf(schema, k, d, v);
  }

  /**
   * Defaults reach nested dicts through nested `properties`:
   * `{"properties": {"db": {"properties": {"port": {"default": 8080}}}}}` turns
   * `{"db": {}}` into `{"db": {"port": 8080}}`.
   */
  lemma NestedDefaultExample()
    ensures var inner := Obj([("properties", Obj([("port", Obj([("default", Int(8080))]))]))]);
            var schema := Obj([("properties", Obj([("db", inner)]))]);
            ApplyDefaults(schema, Obj([("db", Obj([]))])) == Ok(Obj([("db", Obj([("port", Int(8080))]))]))
  {
    var inner := Obj([("properties", Obj([("port", Obj([("default", Int(8080))]))]))]);
    var schema := Obj([("properties", Obj([("db", inner)]))]);
    NestedAdded(schema, inner, "db", "port", Int(8080));
  }

  /** The default of the inner property k2 is added inside the value of the outer property k. */
  lemma NestedAdded(schema: Json, inner: Json, k: string, k2: string, d: Json)
    requires inner == Obj([("properties", Obj([(k2, Obj([("default", d)]))]))])
    requires schema == Obj([("properties", Obj([(k, inner)]))])
    ensures ApplyDefaults(schema, Obj([(k, Obj([]))])) == Ok(Obj([(k, Obj([(k2, d)]))]))
  {
    var top := Obj([(k, Obj([]))]);
    var filled := Obj([(k2, d)]);
    DefaultAdded(inner, k2, d);
    PropertiesOnly(schema, top);
    SingleSetDefaults(k, inner, top);
    assert inner.members[0].0 == "properties";
    assert !HasKey(inner.members, "default");
    assert schema.members[0].1.members[0] == (k, inner);
    assert top.members[0].0 == k;
    assert Lookup(top.members, k) == Some(Obj([]));
    assert Assign(top.members, k, filled) == [(k, filled)];
    assert Descend(schema, 0, top, 0) == Descend(schema, 0, Obj([(k, filled)]), 1);
  }
}
