# jsonparser in Dafny

A model of the configuration pipeline of the `jsonparser` library (`JSONParser` in
`jsonparser/jsonparser.py`), with proofs about it. The library does the following:
- It loads a JSON schema and a JSON configuration, each given as a file path or as a dict.
- In every string leaf it expands include directives (`$include <file.json>` and
  `$include <file.json#/k1/k2>`).
- It substitutes `${NAME}` tokens, first from `os.environ` and then from a
  caller-supplied mapping.
- It merges a list of further sources into the configuration, from left to right.
- It validates the result against the schema. With `extend_defaults`, the validator's
  `properties` keyword is replaced by one that injects the schema's `default` values into
  the configuration while it validates (jsonparser/jsonparser.py:49-57).
- `flatten_dict` turns nested dicts into one dict with dotted keys.

Files, one module each:

| file | module | models |
|---|---|---|
| `json_values.dfy` | `JsonValues` | JSON values, the exceptions that escape, and Python truthiness (`not data`) and the dict operations `k in d`, `d[k]`, `d[k] = v`, `d.setdefault` |
| `flatten.dfy` | `Flatten` | `flatten_dict` |
| `text.dfy` | `Text` | string searches shared by the two regular-expression matchers |
| `env_subst.dfy` | `EnvSubst` | `_sub_env` and the pattern `(\${(.*)})` |
| `include_directive.dfy` | `IncludeDirective` | the pattern `(\$include <(.*\.json)(#/(.*))?>)` and `re.search` |
| `include_pointer.dfy` | `IncludePointer` | the pointer loop of the inner `lookup` |
| `loader.dfy` | `Loader` | `_get_json_data`, `_sub_include`, `pattern_match`, `lookup` |
| `defaults.dfy` | `Defaults` | `_extend_with_default` and `set_defaults` |
| `pipeline.dfy` | `Pipeline` | `JSONParser.__init__`, `get_cfg`, `get_schema` |

How the model represents the code:
- **JSON values.** A JSON document is the datatype `Json`. A dict is a list of members
  in one fixed order. The program targets Python 2 (`iteritems`, `unicode`,
  `collections.Mapping`, and a `json.load` without `object_pairs_hook`), whose dicts
  iterate in hash order. The model fixes the order of the members as they are listed, so
  the claims that depend on order are claims about that fixed order (see "## Left out").
- **Exceptions.** A Python exception is the `Err` case of `Result`.
- **The world.** The file system, `os.environ`, `os.path.join` and `os.path.abspath`
  form the `World`. The file system maps an absolute path to the document that
  `json.load` returns for it.
- **In-place loops.** Loops that mutate a container in place are functions that return
  the container after the loop.
- **Loops with return values.** The loops whose result is returned appear twice: as a
  function, and as a method whose `ensures` equates the two. These are the pointer loop
  (`EvalPointer`), the `set_defaults` loop (`SetDefaultsLoop`) and the `merge_list` loop
  (`Init`).

### Behaviour of the code worth knowing

- **Pointer keys.** Every non-empty key of a pointer indexes the whole included document
  (jsonparser/jsonparser.py:111-113), not the value selected so far. So
  `$include <other.json#/a/b>` on `{"a": {"b": 42}}` raises `KeyError('b')`
  (`Loader.PointerIndexesWholeDocument`). In general the result is the value under the
  last non-empty key (`Loader.PointerInclude`).
- **A missing pointer key.** The `KeyError` of `new_data[key]` is not caught: it escapes
  `_sub_include` and the constructor (`Loader.PointerFails`).
- **Nested includes.** An included file is expanded with the top-level `cfg_dir` again
  (jsonparser/jsonparser.py:106), not with its own directory.
- **Cycles.** Only a file including itself is refused (jsonparser/jsonparser.py:102).
  Longer cycles recurse until the recursion limit.

## Model

| member | source | states |
|---|---|---|
| Flatten.FlattenDict | jsonparser/jsonparser.py:33-42 | the result has no repeated key and no dict value; its keys are exactly the '.'-joined key paths of the input's non-dict leaves, and every member is a (joined path, leaf value) pair of the input |
| Flatten.FlattenValues | jsonparser/jsonparser.py:33-42 | when no two leaves join to the same key with different values, every leaf is a member of the result under its joined path |
| Flatten.FlattenObj | jsonparser/jsonparser.py:33-42 | the recursive call `flatten_dict(value)`: the same keys and leaf pairs as FlattenDict, for a nested dict |
| Flatten.Items | jsonparser/jsonparser.py:39 | the `items` list from member i on: no dict value, its keys are the joined key paths of those members, and each pair is a (joined path, leaf value) pair |
| Flatten.Expand | jsonparser/jsonparser.py:34-38 | `expand(key, value)`: a leaf gives `[(key, value)]`, a dict gives its flattened members under `key.`; the keys are the joined paths under key, and each pair is a leaf under key |
| Flatten.DictOf | jsonparser/jsonparser.py:42 | `dict(items)`: no repeated key, the same key set as the items, every member one of the items, distinct items come back as they are, and a repeated key holds the value of its last item |
| Flatten.FlatDictUnchanged | jsonparser/jsonparser.py:33-42 | a dict with no dict-valued member comes back unchanged |
| JsonValues.Assign | jsonparser/jsonparser.py:132 | `d[k] = v`: k now maps to v and every other key keeps its value; an existing key keeps its position; a new key is appended |
| JsonValues.SetDefault | jsonparser/jsonparser.py:52 | `d.setdefault(k, v)`: an existing key is left alone; an absent one is appended with v |
| JsonValues.Truthy | jsonparser/jsonparser.py:95 | `not data` holds for None, False, 0, the empty string, list and dict, and for nothing else |
| JsonValues.Lookup | jsonparser/jsonparser.py:111-113 | `key in d` and `d[key]`: a value exactly when the key is present, and it is the value stored under that key |
| EnvSubst.Scan | jsonparser/jsonparser.py:76-85 | the scan of `re.sub` over the string: no token name holds a newline; specified by ScanRoundTrip, ScanLeadingToken and ScanNoDollarBrace |
| EnvSubst.CloseBrace | jsonparser/jsonparser.py:76 | the greedy `\${(.*)}` match starting at a `${` ends at the last `}` before the next newline, and there is no match when that line has no `}` |
| EnvSubst.ScanLeadingToken | jsonparser/jsonparser.py:76-85 | a string starting with `${NAME}`, with no `}` on the rest of the line, scans as the token NAME followed by the scan of the rest |
| EnvSubst.ScanNoDollarBrace | jsonparser/jsonparser.py:76-85 | a string with no `${` scans as copied characters only |
| EnvSubst.ScanRoundTrip | jsonparser/jsonparser.py:76-86 | cutting a string into copied characters and `${...}` matches loses nothing: the pieces spell the string again |
| EnvSubst.SubEnvStrAbsent | jsonparser/jsonparser.py:68-89 | a string whose every `${...}` match names an unset variable is returned unchanged |
| EnvSubst.SubEnvStrNoDollarBrace | jsonparser/jsonparser.py:76-89 | a string containing no `${` is returned unchanged for every environment |
| EnvSubst.SubEnvStrWholeToken | jsonparser/jsonparser.py:68-74 | the string `${NAME}` becomes the value of NAME when NAME is set, and stays `${NAME}` when it is not |
| EnvSubst.SubEnvStrSplice | jsonparser/jsonparser.py:68-89 | partial interpolation: in `pre + "${NAME}" + post`, with no `${` in pre and no `}` on post's first line, the text before is copied, `${NAME}` becomes NAME's value (or stays when NAME is unset), and the rest is substituted in turn |
| EnvSubst.SubEnvStrPrefix | jsonparser/jsonparser.py:84-85 | text with no `${` before the rest is copied unchanged, and only the rest is rewritten |
| EnvSubst.SubEnvStrLit | jsonparser/jsonparser.py:84-85 | where no match starts, one character is copied and the substitution goes on after it |
| EnvSubst.SubEnvStrLeadingToken | jsonparser/jsonparser.py:68-85 | a string starting with a complete `${NAME}` match gives NAME's replacement followed by the substituted rest |
| EnvSubst.InterpolationExample | jsonparser/jsonparser.py:68-89 | `"a${X}b"` becomes `"a" + value of X + "b"` when X is set |
| EnvSubst.RenderConcat | jsonparser/jsonparser.py:68-74 | the replacements are independent: rendering two runs of pieces one after the other is rendering each |
| EnvSubst.SubEnvShape | jsonparser/jsonparser.py:63-91 | keys are never rewritten, lists keep their length, and non-string scalars pass through unchanged |
| EnvSubst.SubEnvInert | jsonparser/jsonparser.py:63-91 | a document none of whose strings names a set variable comes back unchanged |
| EnvSubst.SubEnvEmpty | jsonparser/jsonparser.py:65-66 | with an empty mapping the document is returned as it is |
| EnvSubst.SubEnvLeaves | jsonparser/jsonparser.py:63-91 | every string leaf s becomes `SubEnvStr(s, env)`, keys and list lengths are kept, and every other scalar is unchanged |
| EnvSubst.SubEnv | jsonparser/jsonparser.py:63-91 | `_sub_env`: specified by SubEnvLeaves, SubEnvShape, SubEnvInert and SubEnvEmpty |
| EnvSubst.SubEnvStr | jsonparser/jsonparser.py:84-89 | `pattern.sub(lookup, data)` on one string: specified by SubEnvStrSplice, SubEnvStrLeadingToken, SubEnvStrPrefix, SubEnvStrAbsent, SubEnvStrNoDollarBrace and SubEnvStrWholeToken |
| EnvSubst.Render | jsonparser/jsonparser.py:68-74 | the inner `lookup` over the scanned pieces: specified by RenderConcat, SubEnvStrSplice (a set token among literals) and SubEnvStrAbsent |
| IncludeDirective.Find | jsonparser/jsonparser.py:122-123 | a match is a well-spelt directive on one line, with a path ending in `.json`, that occurs in the string |
| IncludeDirective.FindLeftmost | jsonparser/jsonparser.py:122-123 | `re.search` finds nothing exactly when no position starts a match; otherwise its match is the one at the first position that starts a match |
| IncludeDirective.FindComplete | jsonparser/jsonparser.py:122-123 | a string in which a well-formed directive occurs always has a match, starting at or before that occurrence |
| IncludeDirective.MatchAt | jsonparser/jsonparser.py:122-123 | the match anchored at one position is a well-spelt directive occurring there; specified by MatchAtGreedy, FindLeftmost and FindComplete |
| IncludeDirective.TryEnd | jsonparser/jsonparser.py:122-123 | the backtracking of the greedy path group, from the end of the line down: a result is a well-spelt directive occurring at the start; specified by TryEndFinds |
| IncludeDirective.TryEndFinds | jsonparser/jsonparser.py:122-123 | when the path can end at p, the backtracking from above p succeeds with a path ending at p or later; ending at p with a pointer possible, it takes the pointer up to the last `>` of the line |
| IncludeDirective.MatchAtGreedy | jsonparser/jsonparser.py:122-123 | the match at a position has the longest path of every well-formed directive starting there; with an equal path, a pointer is preferred and the match reaches at least as far |
| IncludeDirective.NoKeywordNoDirective | jsonparser/jsonparser.py:122-128 | a string in which `$include <` does not occur has no match |
| IncludeDirective.FindPlain | jsonparser/jsonparser.py:122-123 | `$include <P.json>` is matched with path `P.json` and no pointer |
| IncludeDirective.FindPointer | jsonparser/jsonparser.py:122-123 | `$include <P.json#/K>` is matched with path `P.json` and pointer K, when K has no newline and `.json` does not occur in K (otherwise the greedy path group runs on to the last `.json`) |
| IncludePointer.Split | jsonparser/jsonparser.py:109 | `split('/')` gives at least one part and no part holds '/'; specified by SplitJoin |
| IncludePointer.SplitJoin | jsonparser/jsonparser.py:109 | `split('/')` loses nothing: joining the parts with '/' gives the pointer back |
| IncludePointer.Index | jsonparser/jsonparser.py:113 | `new_data[key]` succeeds exactly on a dict holding key, and gives its value |
| IncludePointer.EvalPointer | jsonparser/jsonparser.py:109-114 | the pointer loop computes `Select`: the first failing index aborts, and empty keys are skipped |
| IncludePointer.SelectLastKey | jsonparser/jsonparser.py:110-114 | the loop succeeds exactly when every non-empty key is a key of the included document, and then it yields the value under the last non-empty key, or None when every key is empty |
| IncludePointer.SelectEmptyKeys | jsonparser/jsonparser.py:110-114 | a pointer made of empty segments only yields None |
| IncludePointer.Select | jsonparser/jsonparser.py:110-114 | the value `tmp` holds after the loop: specified by SelectLastKey, SelectEmptyKeys and EvalPointer |
| Loader.Read | jsonparser/jsonparser.py:151-171 | a path that exists and a dict give status True; anything else gives `("", False)` |
| Loader.GetJsonData | jsonparser/jsonparser.py:146-201 | a source that cannot be read gives `("", False)` whatever the options; otherwise the status is the read status |
| Loader.SubInclude | jsonparser/jsonparser.py:93-143 | expansion keeps every key and its position, keeps list lengths and non-string scalars; only string leaves change, possibly to a value of another type |
| Loader.SubIncludeMembers | jsonparser/jsonparser.py:130-132 | the Mapping loop from member i on: one result per member, each with the member's key and a reshaped value |
| Loader.SubIncludeItems | jsonparser/jsonparser.py:133-135 | the list loop from element i on: one result per element, each a reshaped element |
| Loader.NoDirectiveLeaf | jsonparser/jsonparser.py:123-141 | a leaf without `$include <` is left alone |
| Loader.SelfInclude | jsonparser/jsonparser.py:101-120 | a directive naming the file being expanded turns the leaf into the directive text, whatever the file system holds |
| Loader.MissingTarget | jsonparser/jsonparser.py:106-120 | a directive whose target file does not exist turns the leaf into the directive text |
| Loader.DirectiveInDict | jsonparser/jsonparser.py:101-102 | a directive inside a document passed as a dict raises, since `os.path.abspath` gets the dict |
| Loader.WholeInclude | jsonparser/jsonparser.py:106-141 | without a pointer the leaf becomes the included document after its own include expansion, with the same `cfg_dir` and no variable substitution; a `null` document keeps the leaf |
| Loader.PointerInclude | jsonparser/jsonparser.py:108-141 | with a pointer, the leaf expands without error exactly when every non-empty key is a key of the included document; it becomes the value under the last non-empty key, and keeps the string when there is no such key or the value is `null` |
| Loader.PointerSelect | jsonparser/jsonparser.py:106-141 | with a pointer, the leaf's outcome is that of the pointer loop over the included document |
| Loader.PointerIndexesWholeDocument | jsonparser/jsonparser.py:109-113 | `$include <other.json#/a/b>` on `{"a": {"b": 42}}` raises `KeyError('b')` |
| Loader.PointerFails | jsonparser/jsonparser.py:106-141 | when the pointer loop fails on the included document, its exception escapes the expansion of the leaf |
| Loader.SubIncludeFuel | jsonparser/jsonparser.py:93-143 | a result reached without hitting the recursion limit is the same with any larger limit |
| Loader.GetJsonDataFuel | jsonparser/jsonparser.py:146-201 | the same, for a whole load |
| Loader.DictSourceUnchanged | jsonparser/jsonparser.py:166-201 | a dict source with includes and `os.environ` off, whose strings name no set variable, loads as itself with status True |
| Loader.SingleMember | jsonparser/jsonparser.py:130-132 | expanding a one-member dict is expanding its value under the same key |
| Loader.PatternMatch | jsonparser/jsonparser.py:98-128 | the inner `pattern_match` on one string leaf: specified by NoDirectiveLeaf, SelfInclude, MissingTarget, DirectiveInDict, WholeInclude and PointerInclude |
| Loader.Included | jsonparser/jsonparser.py:106-120 | what replaces the leaf once the named file is loaded: specified by WholeInclude, PointerInclude and PointerSelect |
| Defaults.HasDefault | jsonparser/jsonparser.py:51 | `"default" in subschema` works on a dict, a str and a list, and raises `TypeError` on anything else |
| Defaults.SetDefaultsLoop | jsonparser/jsonparser.py:49-52 | the loop of `set_defaults` computes `SetDefaultsOn`, with the first exception ending it |
| Defaults.SetDefaultsDict | jsonparser/jsonparser.py:49-52 | on a dict instance, every member stays where it was and members are only appended; the keys afterwards are the old keys plus the properties with a dict subschema holding "default" |
| Defaults.SetDefaultsKeeps | jsonparser/jsonparser.py:52 | a key already in the instance keeps its value |
| Defaults.SetDefaultsAdds | jsonparser/jsonparser.py:50-52 | every defaulted property absent from the instance now holds its subschema's default |
| Defaults.SetDefaultsDictOk | jsonparser/jsonparser.py:50-52 | on a dict instance the loop fails exactly when a subschema does not support `in`, or mentions "default" without being a dict |
| Defaults.SetDefaultsList | jsonparser/jsonparser.py:51 | a list instance is never touched; the loop fails only when a subschema does not support `in` |
| Defaults.SetDefaultsScalar | jsonparser/jsonparser.py:51-52 | any other instance is returned as it is when no subschema mentions "default", and the loop fails otherwise |
| Defaults.ApplyDefaultsExtends | jsonparser/jsonparser.py:46-61 | defaulting, descending through nested `properties`, only adds members: no key moves and no value is overwritten at any depth |
| Defaults.DescendExtends | jsonparser/jsonparser.py:54-57 | the descent into each property the instance holds only grows that property's value |
| Defaults.DefaultExample | jsonparser/jsonparser.py:49-57 | `{"properties": {"x": {"default": 5}}}` turns `{}` into `{"x": 5}` and leaves `{"x": 7}` alone |
| Defaults.DefaultAdded | jsonparser/jsonparser.py:46-57 | a schema whose one property k has `{"default": d}` turns `{}` into `{k: d}` |
| Defaults.DefaultKept | jsonparser/jsonparser.py:46-57 | the same schema leaves `{k: v}` as it is, whatever v is: `setdefault` never overwrites |
| Defaults.NestedDefaultExample | jsonparser/jsonparser.py:49-57 | nested `properties` fill nested dicts: `{"db": {}}` becomes `{"db": {"port": 8080}}` |
| Defaults.NestedAdded | jsonparser/jsonparser.py:46-57 | a property k whose subschema defaults the inner property k2 to d turns `{k: {}}` into `{k: {k2: d}}` |
| Defaults.SetDefaultStep | jsonparser/jsonparser.py:51-52 | one pass of the `set_defaults` loop: specified by SetDefaultsDict, SetDefaultsKeeps, SetDefaultsAdds, SetDefaultsList and SetDefaultsScalar |
| Defaults.SetDefaults | jsonparser/jsonparser.py:50-52 | the loop over `properties.items()`: specified by SetDefaultsLoop and the SetDefaults lemmas above |
| Defaults.SetDefaultsOn | jsonparser/jsonparser.py:49-52 | `set_defaults` on a `properties` value that is not a dict raises `AttributeError` from `.items()` |
| Defaults.ApplyDefaults | jsonparser/jsonparser.py:46-61 | the defaulting validator on one instance: specified by ApplyDefaultsExtends, DefaultAdded, DefaultKept and NestedAdded |
| Defaults.Descend | jsonparser/jsonparser.py:54-57 | the stock `properties` keyword descending into each property the instance holds: specified by DescendExtends |
| Pipeline.RawSchema | jsonparser/jsonparser.py:252 | without defaults, a dict schema reaches the validator as the loaded (expanded in place) dict |
| Pipeline.Init | jsonparser/jsonparser.py:225-255 | the constructor's statements, with the `merge_list` loop, compute `Build` |
| Pipeline.JsonParser.Create | jsonparser/jsonparser.py:203-261 | a fresh parser whose `schema` and `data` are those `Build` gives, or the exception `Build` raises |
| Pipeline.FoldLeftCons | jsonparser/jsonparser.py:235-242 | the first entry of `merge_list` is merged first, into the configuration itself |
| Pipeline.FoldLeftAppend | jsonparser/jsonparser.py:235-242 | merging a list in two parts is merging the first part, then the second part into the result |
| Pipeline.LoadAll | jsonparser/jsonparser.py:235-238 | loading every merge entry gives one value per entry |
| Pipeline.LoadAllEach | jsonparser/jsonparser.py:235-238 | all merge entries load exactly when each does, and the i-th loaded value is the i-th entry's data |
| Pipeline.MergeAllIsFold | jsonparser/jsonparser.py:235-242 | the merge loop is: load every entry in order, then fold `merge` over the loaded values from left to right, starting from the configuration |
| Pipeline.BuildWithDefaults | jsonparser/jsonparser.py:225-255 | with `extend_defaults`, the schema is the loaded schema, and the data is the merged configuration with defaults applied, nothing overwritten, and accepted by the validator |
| Pipeline.BuildWithoutDefaults | jsonparser/jsonparser.py:225-255 | without `extend_defaults`, the data is the left fold of the loaded merge entries, checked by a validator built from the `schema` argument as given |
| Pipeline.MissingConfigFile | jsonparser/jsonparser.py:162-164 | a configuration file that does not exist is only logged: the empty string goes on to validation |
| Pipeline.LoadOrderExample | jsonparser/jsonparser.py:187-197 | includes are expanded before `os.environ`, which is substituted before `env_opt`: an included `"${A}"`, with A set to `${B}` and B set to `ok`, ends up `"ok"` |
| Pipeline.LoadOrder | jsonparser/jsonparser.py:187-197 | a one-member file whose string includes the string x loads as x with `os.environ` and then `env_opt` substituted |
| Pipeline.EnvChain | jsonparser/jsonparser.py:191-197 | when `os.environ` maps a to `${b}` and `env_opt` maps b to v, `{k: "${a}"}` ends up `{k: v}` |
| Pipeline.PlainStringInclude | jsonparser/jsonparser.py:106-141 | a leaf `$include <P.json>` whose target holds a string without a directive becomes that string |
| Pipeline.VariableLeaf | jsonparser/jsonparser.py:78-86 | `{k: "${NAME}"}` becomes `{k: value of NAME}` when NAME is set and stays as it is when it is not |
| Pipeline.SwappedOrder | jsonparser/jsonparser.py:191-197 | the two substitutions do not commute: with `env_opt` first, `{k: "${a}"}` stops at `{k: "${b}"}` |
| Pipeline.SwappedOrderExample | jsonparser/jsonparser.py:191-197 | with the environments of LoadOrderExample, the swapped order gives `"${B}"`, which differs from the `"ok"` the code's order gives |
| Pipeline.HostExample | jsonparser/jsonparser.py:195-197 | `{"host": "${HOST}"}` loads as `{"host": "example.com"}` when HOST is mapped, and unchanged when it is not |
| Pipeline.OneVariable | jsonparser/jsonparser.py:195-197 | a dict `{k: "${NAME}"}` loaded with `env_opt` takes NAME's value when `env_opt` sets it and stays as it is otherwise |
| Pipeline.PortDefaultExample | jsonparser/jsonparser.py:225-255 | schema with `port` defaulting to 8080 and configuration `{}`: the parser's data is `{"port": 8080}` when the validator accepts it |
| Pipeline.Load | jsonparser/jsonparser.py:225-236 | every source is loaded with the constructor's options: specified by GetJsonData and LoadOrder |
| Pipeline.MergeAll | jsonparser/jsonparser.py:235-242 | the `merge_list` loop: specified by MergeAllIsFold and Init |
| Pipeline.Build | jsonparser/jsonparser.py:225-255 | the whole constructor: specified by BuildWithDefaults, BuildWithoutDefaults and Init |
| Pipeline.JsonParser.GetCfg | jsonparser/jsonparser.py:257-258 | `get_cfg` returns the stored data: specified by Create |
| Pipeline.JsonParser.GetSchema | jsonparser/jsonparser.py:260-261 | `get_schema` returns the stored schema: specified by Create |

## Left out

- `jsonmerge.merge` is a foreign library. It is the parameter `merge`; the model proves the fold order and nothing about merge itself (deep union, right bias, `merge(A, {}) == A`).
- The Draft 4 validator, `validators.extend`, `RefResolver` and `$ref` resolution are foreign. Validation is the parameter `valid`: a verdict on the schema it was built with and the instance.
- `ref_resolver` and `schema_dir` only choose the resolver passed to that validator, so they are not modelled.
- Defaults.ApplyDefaults: a schema holding `$ref` injects nothing, because resolving the reference belongs to the validator.
- Defaults.ApplyDefaults: only `properties` descends. `items`, `allOf`, `anyOf` and the other keywords that descend into subinstances inject no defaults here.
- Defaults.ApplyDefaults: a schema or subschema that is not a dict injects nothing. What jsonschema does with it belongs to the validator.
- Pipeline.Build: defaulting is applied before validation, not interleaved with it. The validator's order of keywords (say a `required` checked before `properties` injects the default) and an error reported before a later `set_defaults` exception are not modelled.
- Real file I/O, `json.load` and its decoding errors, `os.path.exists`, `join` and `abspath`, and `os.environ` are all the `World`: a map from absolute paths to decoded documents, two path functions and an environment map.
- Logging (the warn, error and debug calls) is left out; it changes no value.
- `print_cfg`, `print_schema`, `dump_cfg` and `dump_schema` only serialise and write files (jsonparser/jsonparser.py:263-289).
- `include_pattern` is never used, because `_sub_include` shadows it with a fixed pattern (line 122). The model has no such parameter.
- The model follows Python 2 semantics. `iteritems` and `unicode` are Python 2-only calls; `str` and `unicode` strings are both `Str`. The `to_unicode` shim (jsonparser/jsonparser.py:28-32) is never used.
- The tuple branch of `_sub_env` and `_sub_include` is left out: item assignment on a tuple fails, and decoded JSON has no tuples.
- Floating-point numbers are not part of `Json`.
- Dict order: Python 2 dicts iterate in hash order, while the model iterates the members in the order they are listed. These claims hold for that fixed order, not for the program's hash order:
  - the positions stated by JsonValues.Assign, JsonValues.SetDefault, Loader.SubInclude, Defaults.SetDefaultsDict and Defaults.ApplyDefaultsExtends;
  - Flatten.DictOf's "a repeated key keeps the position of its first item" (its value, that of the last item, does not depend on the order);
  - which of two colliding dotted keys wins in `flatten_dict`;
  - which member's exception escapes first from a loop over a dict.
- Pipeline.BuildWithDefaults: the schema's `default` object is stored in the data itself (`instance.setdefault(property_, subschema["default"])`, line 52), and nested `properties` then fill it in place. For example, take schema `{"properties": {"db": {"default": {}, "properties": {"port": {"default": 8080}}}}}` and configuration `{}`. Python's `get_schema()` afterwards shows that default as `{"port": 8080}`, while `Config.schema` keeps `{}`. The claim "the schema is the loaded schema" holds only for a schema whose defaults are not dicts filled in this way.
- In-place mutation and aliasing are not modelled: a dict passed by the caller is mutated, and a default value is shared with the schema. Each step is modelled as a result value.
- Loader.GetJsonData: Python's recursion limit is the budget `fuel`, which runs out with `RecursionLimit`. `SubIncludeFuel` shows that the budget decides nothing else.
- EnvSubst.SubEnv: idempotence is not claimed. A substituted value may itself hold `${...}`, and the greedy match can join pieces.
- `setup.py` is packaging metadata and is left out.
- The test script runs the library on fixture files and asserts nothing, so it is left out.
