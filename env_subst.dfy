/**
 * `_sub_env`: environment-variable interpolation over every string leaf of a document.
 * A string is rewritten by `re.sub` with the pattern `(\${(.*)})`: the match that starts
 * at a `${` runs, greedily, to the LAST `}` before the end of that line; its inner text
 * names a variable, and the whole match is replaced by the variable's value, or left as
 * it was when the variable is not set.
 */
module EnvSubst {
  import opened JsonValues
  import opened Text

  type Env = map<string, string>

  /** A string cut into what `re.sub` copies and what it offers to `lookup`. */
  datatype Piece = Lit(c: char) | Token(name: string)

  /**
   * Where a match of `\${(.*)}` that starts at s[0] ends: the index of its closing
   * brace, which is the last `}` before the first newline after the `${`.
   */
  function CloseBrace(s: string): (r: Option<nat>)
    ensures r.Some? ==> |s| >= 2 && s[0] == '$' && s[1] == '{'
    ensures r.Some? ==> 2 <= r.value < |s| && s[r.value] == '}' && NoNewline(s, 2, r.value)
    ensures r.Some? ==> forall k | r.value < k < |s| && NoNewline(s, 2, k) :: s[k] != '}'
    ensures r.None? && |s| >= 2 && s[0] == '$' && s[1] == '{' ==>
              forall k | 2 <= k < |s| && NoNewline(s, 2, k) :: s[k] != '}'
  {
    if |s| >= 2 && s[0] == '$' && s[1] == '{' then
      var e := LineEnd(s, 2);
      var r := LastIndex(s, '}', 2, e);
      assert e < |s| ==> s[e] == '\n';
      r
    else
      None
  }

  /** The left-to-right scan `re.sub` makes: a match where one starts, otherwise one character copied. */
  function Scan(s: string): (r: seq<Piece>)
    ensures forall p | p in r && p.Token? :: '\n' !in p.name
    decreases |s|
  {
    if s == [] then []
    else
      match CloseBrace(s)
      case Some(j) =>
        assert forall k | 2 <= k < j :: s[k] != '\n';
        [Token(s[2..j])] + Scan(s[j + 1..])
      case None => [Lit(s[0])] + Scan(s[1..])
  }

  /** The original text of the pieces. */
  function Unscan(ps: seq<Piece>): string {
    if ps == [] then ""
    else
      (match ps[0]
       case Lit(c) => [c]
       case Token(n) => "${" + n + "}")
      + Unscan(ps[1..])
  }

  /** The inner `lookup`: a set variable gives its value, an unset one keeps the matched text. */
  function Replacement(p: Piece, env: Env): string {
    match p
    case Lit(c) => [c]
    case Token(n) => if n in env then env[n] else "${" + n + "}"
  }

  /** What `re.sub` builds: the copied characters and the replacements, in order. */
  function Render(ps: seq<Piece>, env: Env): string {
    if ps == [] then "" else Replacement(ps[0], env) + Render(ps[1..], env)
  }

  /** `pattern.sub(lookup, data)` on one string. */
  function SubEnvStr(s: string, env: Env): string {
    Render(Scan(s), env)
  }

  /** `_sub_env(data, env_opt)`: every string leaf rewritten, keys and containers kept. */
  function SubEnv(data: Json, env: Env): Json {
    if !Truthy(data) || |env| == 0 then data
    else
      match data
      case Obj(ms) =>
        var out := seq(|ms|, i requires 0 <= i < |ms| => (ms[i].0, SubEnv(ms[i].1, env)));
        Obj(out)
      case Arr(xs) =>
        var out := seq(|xs|, i requires 0 <= i < |xs| => SubEnv(xs[i], env));
        Arr(out)
      case Str(s) => Str(SubEnvStr(s, env))
      case _ => data
  }

  /**
   * b has the shape of a: the same keys in the same order, lists of the same length,
   * a string where a had a string, and every other scalar unchanged.
   */
  predicate SameShape(a: Json, b: Json) {
    match a
    case Obj(ms) =>
      b.Obj? && |b.members| == |ms| &&
      forall i | 0 <= i < |ms| :: b.members[i].0 == ms[i].0 && SameShape(ms[i].1, b.members[i].1)
    case Arr(xs) =>
      b.Arr? && |b.items| == |xs| &&
      forall i | 0 <= i < |xs| :: SameShape(xs[i], b.items[i])
    case Str(_) => b.Str?
    case _ => b == a
  }

  lemma {:induction false} SameShapeRefl(a: Json)
    ensures SameShape(a, a)
  {
    match a
    case Obj(ms) =>
      forall i | 0 <= i < |ms| ensures SameShape(ms[i].1, ms[i].1) { SameShapeRefl(ms[i].1); }
    case Arr(xs) =>
      forall i | 0 <= i < |xs| ensures SameShape(xs[i], xs[i]) { SameShapeRefl(xs[i]); }
    case _ =>
  }

  // ---- Strings ----

  lemma {:induction false} ScanRoundTrip(s: string)
    ensures Unscan(Scan(s)) == s
    decreases |s|
  {
    if s != [] {
      var c := CloseBrace(s);
      if c.Some? {
        var j := c.value;
        ScanRoundTrip(s[j + 1..]);
        TokenText(s, j, Scan(s[j + 1..]));
      } else {
        ScanRoundTrip(s[1..]);
        LitText(s, Scan(s[1..]));
      }
    }
  }

  lemma TokenText(s: string, j: nat, rest: seq<Piece>)
    requires 2 <= j < |s| && s[0] == '$' && s[1] == '{' && s[j] == '}'
    requires Unscan(rest) == s[j + 1..]
    ensures Unscan([Token(s[2..j])] + rest) == s
  {
    var ps := [Token(s[2..j])] + rest;
    assert ps[0] == Token(s[2..j]) && ps[1..] == rest;
    assert s[..j + 1] == "${" + s[2..j] + "}";
    assert s == s[..j + 1] + s[j + 1..];
  }

  lemma LitText(s: string, rest: seq<Piece>)
    requires s != [] && Unscan(rest) == s[1..]
    ensures Unscan([Lit(s[0])] + rest) == s
  {
    var ps := [Lit(s[0])] + rest;
    assert ps[0] == Lit(s[0]) && ps[1..] == rest;
    assert s == [s[0]] + s[1..];
  }

  /** The variables a string refers to: the names inside its `${...}` matches. */
  predicate NamesAbsent(s: string, env: Env) {
    forall p | p in Scan(s) && p.Token? :: p.name !in env
  }

  lemma {:induction false} RenderAbsent(ps: seq<Piece>, env: Env)
    requires forall p | p in ps && p.Token? :: p.name !in env
    ensures Render(ps, env) == Unscan(ps)
  {
    if ps != [] {
      assert ps[0] in ps;
      assert forall p | p in ps[1..] :: p in ps;
      RenderAbsent(ps[1..], env);
    }
  }

  /** A string whose every `${...}` names an unset variable is returned unchanged. */
  lemma SubEnvStrAbsent(s: string, env: Env)
    requires NamesAbsent(s, env)
    ensures SubEnvStr(s, env) == s
  {
    RenderAbsent(Scan(s), env);
    ScanRoundTrip(s);
  }

  predicate HasDollarBrace(s: string) {
    exists i | 0 <= i < |s| - 1 :: s[i] == '$' && s[i + 1] == '{'
  }

  lemma {:induction false} ScanNoDollarBrace(s: string)
    requires !HasDollarBrace(s)
    ensures forall p | p in Scan(s) :: p.Lit?
    decreases |s|
  {
    if s != [] {
      assert CloseBrace(s).None?;
      NoDollarBraceTail(s);
      ScanNoDollarBrace(s[1..]);
    }
  }

  /** A string without `${` is returned unchanged, whatever the environment. */
  lemma SubEnvStrNoDollarBrace(s: string, env: Env)
    requires !HasDollarBrace(s)
    ensures SubEnvStr(s, env) == s
  {
    ScanNoDollarBrace(s);
    SubEnvStrAbsent(s, env);
  }

  /** The string `${NAME}` becomes the value of NAME when it is set, and stays as it is otherwise. */
  lemma SubEnvStrWholeToken(name: string, env: Env)
    requires '\n' !in name
    ensures SubEnvStr("${" + name + "}", env) == if name in env then env[name] else "${" + name + "}"
  {
    var s := "${" + name + "}";
    assert s[2..|s| - 1] == name;
    assert NoNewline(s, 2, |s|) by {
      forall k | 2 <= k < |s| ensures s[k] != '\n' {
        if k < |s| - 1 { assert s[k] == name[k - 2]; }
      }
    }
    var e := LineEnd(s, 2);
    assert e == |s|;
    assert s[|s| - 1] == '}';
    assert LastIndex(s, '}', 2, |s|) == Some(|s| - 1);
    assert CloseBrace(s) == Some(|s| - 1);
    assert s[|s|..] == [];
    assert Scan(s) == [Token(name)] + Scan([]);
    var ps := [Token(name)];
    assert ps[1..] == [];
    assert Render(ps, env) == (if name in env then env[name] else "${" + name + "}") + Render([], env);
  }

  /** The lookups are independent: rendering two runs of pieces is rendering each. */
  lemma {:induction false} RenderConcat(a: seq<Piece>, b: seq<Piece>, env: Env)
    ensures Render(a + b, env) == Render(a, env) + Render(b, env)
  {
    if a != [] {
      assert (a + b)[0] == a[0] && (a + b)[1..] == a[1..] + b;
      RenderConcat(a[1..], b, env);
    } else {
      assert a + b == b;
    }
  }

  /**
   * Text with no `${` in front of the rest is copied as it is and only the rest is
   * rewritten, provided no `${` is formed where the two meet.
   */
  lemma {:induction false} SubEnvStrPrefix(pre: string, rest: string, env: Env)
    requires !HasDollarBrace(pre)
    requires pre != [] && rest != [] ==> !(pre[|pre| - 1] == '$' && rest[0] == '{')
    ensures SubEnvStr(pre + rest, env) == pre + SubEnvStr(rest, env)
    decreases |pre|
  {
    if pre != [] {
      var s := pre + rest;
      NoMatchAtJoin(pre, rest);
      assert s[1..] == pre[1..] + rest;
      NoDollarBraceTail(pre);
      SubEnvStrPrefix(pre[1..], rest, env);
      SubEnvStrLit(s, env);
      assert pre == [pre[0]] + pre[1..];
    } else {
      assert pre + rest == rest;
    }
  }

  lemma NoMatchAtJoin(pre: string, rest: string)
    requires pre != [] && !HasDollarBrace(pre)
    requires rest != [] ==> !(pre[|pre| - 1] == '$' && rest[0] == '{')
    ensures CloseBrace(pre + rest).None?
  {
    var s := pre + rest;
    if |pre| >= 2 {
      assert s[0] == pre[0] && s[1] == pre[1];
      assert !(pre[0] == '$' && pre[1] == '{');
    } else if |s| >= 2 {
      assert s[0] == pre[0] && s[1] == rest[0];
    }
  }

  lemma NoDollarBraceTail(s: string)
    requires s != [] && !HasDollarBrace(s)
    ensures !HasDollarBrace(s[1..])
  {
    forall i | 0 <= i < |s[1..]| - 1 ensures !(s[1..][i] == '$' && s[1..][i + 1] == '{') {
      assert s[1..][i] == s[i + 1] && s[1..][i + 1] == s[i + 2];
    }
  }

  /** Where no match starts, `re.sub` copies one character and goes on. */
  lemma SubEnvStrLit(s: string, env: Env)
    requires s != [] && CloseBrace(s).None?
    ensures SubEnvStr(s, env) == [s[0]] + SubEnvStr(s[1..], env)
  {
    var ps := Scan(s);
    assert ps == [Lit(s[0])] + Scan(s[1..]);
    assert ps[0] == Lit(s[0]) && ps[1..] == Scan(s[1..]);
  }

  /** s has no `}` before its first newline, so a `${` match cannot reach into it. */
  predicate NoBraceOnLine(s: string) {
    forall k | 0 <= k < |s| && NoNewline(s, 0, k) :: s[k] != '}'
  }

  /** A string that starts with `${NAME}`, where the match stops: the token is looked up and the scan goes on after it. */
  lemma SubEnvStrLeadingToken(name: string, post: string, env: Env)
    requires '\n' !in name && NoBraceOnLine(post)
    ensures SubEnvStr("${" + name + "}" + post, env)
         == (if name in env then env[name] else "${" + name + "}") + SubEnvStr(post, env)
  {
    var ps := Scan("${" + name + "}" + post);
    ScanLeadingToken(name, post);
    assert ps[0] == Token(name) && ps[1..] == Scan(post);
  }

  /** The scan puts a token where a `${...}` match is complete, and goes on after its `}`. */
  lemma ScanLeadingToken(name: string, post: string)
    requires '\n' !in name && NoBraceOnLine(post)
    ensures Scan("${" + name + "}" + post) == [Token(name)] + Scan(post)
  {
    var s := "${" + name + "}" + post;
    var c := |name| + 2;
    assert s[c] == '}' && s[2..c] == name && s[c + 1..] == post;
    assert NoNewline(s, 2, c + 1) by {
      forall k | 2 <= k < c + 1 ensures s[k] != '\n' {
        if k < c { assert s[k] == name[k - 2]; }
      }
    }
    LineEndPast(s, 2, c + 1);
    var e := LineEnd(s, 2);
    forall k | c < k < e ensures s[k] != '}' {
      assert s[k] == post[k - c - 1];
      assert NoNewline(post, 0, k - c - 1) by {
        forall m | 0 <= m < k - c - 1 ensures post[m] != '\n' { assert post[m] == s[m + c + 1]; }
      }
    }
    assert LastIndex(s, '}', 2, e) == Some(c);
    assert CloseBrace(s) == Some(c);
  }

  /**
   * Partial interpolation: a `${NAME}` inside a longer string is replaced by the value of
   * NAME (or kept when NAME is unset), the text before it is copied, and the scan goes on
   * after it. The match stops at this `}` because no `}` follows on the same line.
   */
  lemma SubEnvStrSplice(pre: string, name: string, post: string, env: Env)
    requires !HasDollarBrace(pre) && '\n' !in name && NoBraceOnLine(post)
    ensures SubEnvStr(pre + "${" + name + "}" + post, env)
         == pre + (if name in env then env[name] else "${" + name + "}") + SubEnvStr(post, env)
  {
    var rest := "${" + name + "}" + post;
    assert pre + "${" + name + "}" + post == pre + rest;
    SubEnvStrPrefix(pre, rest, env);
    SubEnvStrLeadingToken(name, post, env);
  }

  /** `"a${X}b"` becomes `"a" + value of X + "b"` when X is set. */
  lemma InterpolationExample(env: Env)
    requires "X" in env
    ensures SubEnvStr("a${X}b", env) == "a" + env["X"] + "b"
  {
    assert "a${X}b" == "a" + "${" + "X" + "}" + "b";
    assert NoBraceOnLine("b") by { assert "b"[0] != '}'; }
    SubEnvStrSplice("a", "X", "b", env);
    SubEnvStrNoDollarBrace("b", env);
  }

  // ---- Documents ----

  /** Keys are never rewritten, lists keep their length, non-string scalars pass through. */
  lemma {:induction false} SubEnvShape(data: Json, env: Env)
    ensures SameShape(data, SubEnv(data, env))
  {
    if !Truthy(data) || |env| == 0 {
      SameShapeRefl(data);
    } else {
      match data
      case Obj(ms) =>
        forall i | 0 <= i < |ms| ensures SameShape(ms[i].1, SubEnv(ms[i].1, env)) {
          SubEnvShape(ms[i].1, env);
        }
      case Arr(xs) =>
        forall i | 0 <= i < |xs| ensures SameShape(xs[i], SubEnv(xs[i], env)) {
          SubEnvShape(xs[i], env);
        }
      case _ =>
    }
  }

  /** b is a with every string leaf s replaced by `SubEnvStr(s, env)` and everything else kept. */
  predicate Substituted(a: Json, b: Json, env: Env) {
    match a
    case Obj(ms) =>
      b.Obj? && |b.members| == |ms| &&
      forall i | 0 <= i < |ms| :: b.members[i].0 == ms[i].0 && Substituted(ms[i].1, b.members[i].1, env)
    case Arr(xs) =>
      b.Arr? && |b.items| == |xs| &&
      forall i | 0 <= i < |xs| :: Substituted(xs[i], b.items[i], env)
    case Str(s) => b == Str(SubEnvStr(s, env))
    case _ => b == a
  }

  /** `_sub_env` rewrites every string leaf with `pattern.sub(lookup, ...)` and changes nothing else. */
  lemma {:induction false} SubEnvLeaves(data: Json, env: Env)
    ensures Substituted(data, SubEnv(data, env), env)
  {
    if |env| == 0 {
      SubstitutedNoVars(data, env);
    } else if !Truthy(data) {
      match data
      case Str(s) => assert s == [];
      case _ =>
    } else {
      match data
      case Obj(ms) =>
        forall i | 0 <= i < |ms| ensures Substituted(ms[i].1, SubEnv(ms[i].1, env), env) {
          SubEnvLeaves(ms[i].1, env);
        }
      case Arr(xs) =>
        forall i | 0 <= i < |xs| ensures Substituted(xs[i], SubEnv(xs[i], env), env) {
          SubEnvLeaves(xs[i], env);
        }
      case _ =>
    }
  }

  /** A one-member dict holding a string: the string is substituted, the key is kept. */
  lemma SubEnvOneMember(k: string, x: string, env: Env)
    ensures SubEnv(Obj([(k, Str(x))]), env) == Obj([(k, Str(SubEnvStr(x, env)))])
  {
    var j := Obj([(k, Str(x))]);
    SubEnvLeaves(j, env);
    var b := SubEnv(j, env);
    assert j.members[0].1 == Str(x);
    assert b.members[0] == (k, Str(SubEnvStr(x, env)));
  }

  lemma {:induction false} SubstitutedNoVars(data: Json, env: Env)
    requires |env| == 0
    ensures Substituted(data, data, env)
  {
    match data
    case Obj(ms) =>
      forall i | 0 <= i < |ms| ensures Substituted(ms[i].1, ms[i].1, env) { SubstitutedNoVars(ms[i].1, env); }
    case Arr(xs) =>
      forall i | 0 <= i < |xs| ensures Substituted(xs[i], xs[i], env) { SubstitutedNoVars(xs[i], env); }
    case Str(s) =>
      assert env == map[];
      SubEnvStrAbsent(s, env);
    case _ =>
  }

  /** Every string leaf of data refers only to unset variables. */
  predicate Inert(data: Json, env: Env) {
    match data
    case Obj(ms) => forall i | 0 <= i < |ms| :: Inert(ms[i].1, env)
    case Arr(xs) => forall i | 0 <= i < |xs| :: Inert(xs[i], env)
    case Str(s) => NamesAbsent(s, env)
    case _ => true
  }

  /** A document that refers to no set variable comes back unchanged. */
  lemma {:induction false} SubEnvInert(data: Json, env: Env)
    requires Inert(data, env)
    ensures SubEnv(data, env) == data
  {
    if Truthy(data) && |env| != 0 {
      match data
      case Obj(ms) =>
        forall i | 0 <= i < |ms| ensures SubEnv(ms[i].1, env) == ms[i].1 {
          SubEnvInert(ms[i].1, env);
        }
        assert SubEnv(data, env).members == ms;
      case Arr(xs) =>
        forall i | 0 <= i < |xs| ensures SubEnv(xs[i], env) == xs[i] {
          SubEnvInert(xs[i], env);
        }
        assert SubEnv(data, env).items == xs;
      case Str(s) => SubEnvStrAbsent(s, env);
      case _ =>
    }
  }

  /** With no variables at all, nothing is rewritten. */
  lemma SubEnvEmpty(data: Json)
    ensures SubEnv(data, map[]) == data
  {
  }
}
