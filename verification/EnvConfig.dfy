/**
 * Environment overrides for the keys of the adapter's config schema (env_config.go): the index of the
 * environment, the lookup, the required-keys test and the merge with Control's configuration.
 */
module EnvConfig {
  import opened Text

  /** A configuration value; Other is a non-string, as fmt.Sprint prints it. */
  datatype Value = Null | Str(text: string) | Other(printed: string)

  type Config = map<string, Value>

  /** A schema entry; one that is no object is never required. */
  datatype Def = NotAnObject | Meta(required: bool, hasDefault: bool)

  type Schema = map<string, Def>

  /******* The environment *******/

  datatype Binding = Unusable | Binding(name: string, val: string)

  /** A "name=value" string with a name and a value that is not blank binds the lower-cased name. */
  function BindingOf(kv: string): Binding {
    var eq := IndexOf(kv, '=');
    if eq == |kv| || eq == 0 || TrimSpace(kv[eq + 1..]) == "" then Unusable else Binding(ToLower(kv[..eq]), kv[eq + 1..])
  }

  /** A string is cut at its first '='; it binds nothing without one, without a name, or with a blank value. */
  lemma BindingIs(name: string, val: string)
    requires '=' !in name
    ensures BindingOf(name) == Unusable
    ensures BindingOf(name + "=" + val) ==
              if name == "" || TrimSpace(val) == "" then Unusable else Binding(ToLower(name), val)
  {
    CutAt(name, '=', val);
    var kv := name + "=" + val;
    assert kv[|name|] == '=' && kv[..|name|] == name && kv[|name| + 1..] == val;
    assert IndexOf(kv, '=') == |name|;
  }

  function Bindings(environ: seq<string>): (bs: seq<Binding>)
    ensures |bs| == |environ| && forall i :: 0 <= i < |bs| ==> bs[i] == BindingOf(environ[i])
  {
    seq(|environ|, i requires 0 <= i < |environ| => BindingOf(environ[i]))
  }

  type Index = map<string, string>

  /** The index of the first n bindings, later ones over earlier ones. */
  function IndexOfFirst(bs: seq<Binding>, n: nat): Index
    requires n <= |bs|
  {
    if n == 0 then map[]
    else
      match bs[n - 1]
      case Unusable => IndexOfFirst(bs, n - 1)
      case Binding(name, val) => IndexOfFirst(bs, n - 1)[name := val]
  }

  function EnvIndex(environ: seq<string>): Index {
    IndexOfFirst(Bindings(environ), |environ|)
  }

  method NewLowercaseEnvIndex(environ: seq<string>) returns (idx: Index)
    ensures idx == EnvIndex(environ)
  {
    idx := IndexBindings(Bindings(environ));
  }

  method IndexBindings(bs: seq<Binding>) returns (idx: Index)
    ensures idx == IndexOfFirst(bs, |bs|)
  {
    idx := map[];
    for i := 0 to |bs|
      invariant idx == IndexOfFirst(bs, i)
    {
      if bs[i].Unusable? {
        continue;
      }
      idx := idx[bs[i].name := bs[i].val];
    }
  }

  /** Binding i is the last of the first n of the name. */
  ghost predicate LastBinding(bs: seq<Binding>, n: nat, name: string, val: string, i: nat)
    requires n <= |bs|
  {
    i < n && bs[i] == Binding(name, val) && forall j :: i < j < n && bs[j].Binding? ==> bs[j].name != name
  }

  ghost predicate Bound(bs: seq<Binding>, n: nat, name: string, val: string)
    requires n <= |bs|
  {
    exists i: nat :: LastBinding(bs, n, name, val, i)
  }

  lemma BoundNext(bs: seq<Binding>, n: nat, name: string, val: string)
    requires 0 < n <= |bs|
    ensures Bound(bs, n, name, val) <==>
              if bs[n - 1].Binding? && bs[n - 1].name == name then bs[n - 1].val == val else Bound(bs, n - 1, name, val)
  {
    if bs[n - 1].Binding? && bs[n - 1].name == name {
      if bs[n - 1].val == val { assert LastBinding(bs, n, name, val, n - 1); }
    } else {
      if Bound(bs, n - 1, name, val) {
        var i: nat :| LastBinding(bs, n - 1, name, val, i);
        assert LastBinding(bs, n, name, val, i);
      }
      if Bound(bs, n, name, val) {
        var i: nat :| LastBinding(bs, n, name, val, i);
        assert LastBinding(bs, n - 1, name, val, i);
      }
    }
  }

  lemma {:induction false} IndexIsLastOf(bs: seq<Binding>, n: nat, name: string, val: string)
    requires n <= |bs|
    ensures name in IndexOfFirst(bs, n) && IndexOfFirst(bs, n)[name] == val <==> Bound(bs, n, name, val)
  {
    if n > 0 {
      IndexIsLastOf(bs, n - 1, name, val);
      BoundNext(bs, n, name, val);
    }
  }

  /** The index holds for a name, in whatever case it is written, the value of the last usable string of the environment. */
  lemma IndexIsLast(environ: seq<string>, name: string, val: string)
    ensures name in EnvIndex(environ) && EnvIndex(environ)[name] == val
            <==> exists i: nat :: LastBinding(Bindings(environ), |environ|, name, val, i)
  {
    IndexIsLastOf(Bindings(environ), |environ|, name, val);
  }

  function LookupSchemaEnv(idx: Index, key: string): Option<string> {
    if ToLower(key) in idx then Some(TrimSpace(idx[ToLower(key)]))
    else if ToLower("AR_" + key) in idx then Some(TrimSpace(idx[ToLower("AR_" + key)]))
    else None
  }

  /** The key has a value in the environment that counts. */
  predicate FromEnv(idx: Index, key: string) {
    LookupSchemaEnv(idx, key).Some? && LookupSchemaEnv(idx, key).value != ""
  }

  /** Some string of the environment gives the name, whatever its case, a value that is not blank. */
  ghost predicate Sets(environ: seq<string>, name: string) {
    exists i :: 0 <= i < |environ| && BindingOf(environ[i]).Binding? && BindingOf(environ[i]).name == ToLower(name)
  }

  lemma {:induction false} IndexHasNames(bs: seq<Binding>, n: nat, name: string)
    requires n <= |bs|
    ensures name in IndexOfFirst(bs, n) <==> exists i :: 0 <= i < n && bs[i].Binding? && bs[i].name == name
  {
    if n > 0 { IndexHasNames(bs, n - 1, name); }
  }

  lemma {:induction false} IndexHoldsValues(bs: seq<Binding>, n: nat)
    requires n <= |bs| && forall i :: 0 <= i < |bs| && bs[i].Binding? ==> TrimSpace(bs[i].val) != ""
    ensures forall name :: name in IndexOfFirst(bs, n) ==> TrimSpace(IndexOfFirst(bs, n)[name]) != ""
  {
    if n > 0 { IndexHoldsValues(bs, n - 1); }
  }

  /** A schema key has a value in the environment exactly when a string sets the key itself or AR_ and the key. */
  lemma FromEnvIff(environ: seq<string>, key: string)
    ensures FromEnv(EnvIndex(environ), key) <==> Sets(environ, key) || Sets(environ, "AR_" + key)
  {
    var bs := Bindings(environ);
    IndexHoldsValues(bs, |bs|);
    IndexHasNames(bs, |bs|, ToLower(key));
    IndexHasNames(bs, |bs|, ToLower("AR_" + key));
    NamesSet(environ, key);
    NamesSet(environ, "AR_" + key);
  }

  lemma NamesSet(environ: seq<string>, name: string)
    ensures Sets(environ, name) <==>
              exists i :: 0 <= i < |Bindings(environ)| && Bindings(environ)[i].Binding? && Bindings(environ)[i].name == ToLower(name)
  {
    var bs := Bindings(environ);
    if i :| 0 <= i < |environ| && BindingOf(environ[i]).Binding? && BindingOf(environ[i]).name == ToLower(name) {
      assert bs[i].Binding? && bs[i].name == ToLower(name);
    }
    if i :| 0 <= i < |bs| && bs[i].Binding? && bs[i].name == ToLower(name) {
      assert BindingOf(environ[i]).Binding?;
    }
  }

  /** The key's own variable comes before the AR_ one, and of each the last usable string counts. */
  lemma LookupPrecedence(environ: seq<string>, key: string, val: string)
    ensures Bound(Bindings(environ), |environ|, ToLower(key), val) ==>
              LookupSchemaEnv(EnvIndex(environ), key) == Some(TrimSpace(val))
    ensures !Sets(environ, key) && Bound(Bindings(environ), |environ|, ToLower("AR_" + key), val) ==>
              LookupSchemaEnv(EnvIndex(environ), key) == Some(TrimSpace(val))
  {
    IndexIsLastOf(Bindings(environ), |environ|, ToLower(key), val);
    IndexIsLastOf(Bindings(environ), |environ|, ToLower("AR_" + key), val);
    IndexHasNames(Bindings(environ), |environ|, ToLower(key));
    NamesSet(environ, key);
  }

  function EnvOverrides(schema: Schema, idx: Index): map<string, string> {
    map k | k in schema && FromEnv(idx, k) :: LookupSchemaEnv(idx, k).value
  }

  method EnvOverridesFromSchema(schema: Schema, idx: Index) returns (out: map<string, string>)
    ensures out == EnvOverrides(schema, idx)
    ensures forall k :: k in out <==> k in schema && LookupSchemaEnv(idx, k).Some? && LookupSchemaEnv(idx, k).value != ""
    ensures forall k :: k in out ==> out[k] == LookupSchemaEnv(idx, k).value
  {
    out := map[];
    var left := schema.Keys;
    while left != {}
      invariant left <= schema.Keys
      invariant forall k :: k in out <==> k in schema && k !in left && FromEnv(idx, k)
      invariant forall k :: k in out ==> out[k] == LookupSchemaEnv(idx, k).value
      decreases |left|
    {
      var k :| k in left;
      left := left - {k};
      var v := LookupSchemaEnv(idx, k);
      if v.Some? && v.value != "" {
        out := out[k := v.value];
      }
    }
  }

  /******* Required keys *******/

  function ValueAsString(v: Value): string {
    match v
    case Null => ""
    case Str(s) => TrimSpace(s)
    case Other(s) => TrimSpace(s)
  }

  predicate HasValue(cfg: Config, key: string) {
    key in cfg && ValueAsString(cfg[key]) != ""
  }

  predicate Demands(def: Def) {
    def.Meta? && def.required && !def.hasDefault
  }

  /** Every key that is required and has no default has a value that is not blank. */
  predicate Satisfied(schema: Schema, cfg: Config) {
    forall k :: k in schema && Demands(schema[k]) ==> HasValue(cfg, k)
  }

  method RequiredConfigSatisfied(schema: Schema, cfg: Config) returns (ok: bool)
    ensures ok <==> Satisfied(schema, cfg)
    ensures ok <==> forall k :: k in schema && schema[k].Meta? && schema[k].required && !schema[k].hasDefault ==>
                      k in cfg && ((cfg[k].Str? && TrimSpace(cfg[k].text) != "")
                                   || (cfg[k].Other? && TrimSpace(cfg[k].printed) != ""))
  {
    var left := schema.Keys;
    while left != {}
      invariant left <= schema.Keys
      invariant forall k :: k in schema.Keys - left && Demands(schema[k]) ==> HasValue(cfg, k)
      decreases |left|
    {
      var key :| key in left;
      left := left - {key};
      var def := schema[key];
      if def.NotAnObject? || !def.required {
        continue;
      }
      if ValueAsString(if key in cfg then cfg[key] else Null) != "" {
        continue;
      }
      if def.hasDefault {
        continue;
      }
      return false;
    }
    return true;
  }

  function EnvOnly(schema: Schema, idx: Index): Config {
    map k | k in EnvOverrides(schema, idx) :: Str(EnvOverrides(schema, idx)[k])
  }

  method EnvAloneSatisfiesRequired(schema: Schema, idx: Index) returns (ok: bool)
    ensures ok <==> Satisfied(schema, EnvOnly(schema, idx))
    ensures ok <==> forall k :: k in schema && schema[k].Meta? && schema[k].required && !schema[k].hasDefault ==>
                      FromEnv(idx, k)
  {
    var envOnly: Config := map[];
    var left := schema.Keys;
    while left != {}
      invariant left <= schema.Keys
      invariant forall k :: k in envOnly <==> k in schema && k !in left && FromEnv(idx, k)
      invariant forall k :: k in envOnly ==> envOnly[k] == Str(LookupSchemaEnv(idx, k).value)
      decreases |left|
    {
      var k :| k in left;
      left := left - {k};
      var v := LookupSchemaEnv(idx, k);
      if v.Some? && v.value != "" {
        envOnly := envOnly[k := Str(v.value)];
      }
    }
    assert envOnly == EnvOnly(schema, idx);
    EnvOnlyValues(schema, idx);
    ok := RequiredConfigSatisfied(schema, envOnly);
  }

  lemma EnvOnlyValues(schema: Schema, idx: Index)
    ensures forall k :: k in schema ==> (HasValue(EnvOnly(schema, idx), k) <==> FromEnv(idx, k))
  {}

  /******* Merging *******/

  /** The environment for the schema's keys it has, Control for everything else. */
  function Merge(control: Config, envKeys: map<string, string>, schema: Schema): Config {
    map k | k in control.Keys + (envKeys.Keys * schema.Keys) ::
      if k in envKeys && k in schema then Str(envKeys[k]) else control[k]
  }

  method CopyConfig(control: Config) returns (final: Config)
    ensures final == control
  {
    final := map[];
    var left := control.Keys;
    while left != {}
      invariant left <= control.Keys
      invariant forall k :: k in final <==> k in control && k !in left
      invariant forall k :: k in final ==> final[k] == control[k]
      decreases |left|
    {
      var k :| k in left;
      left := left - {k};
      final := final[k := control[k]];
    }
  }

  method MergeControlWithEnvPriority(control: Config, envKeys: map<string, string>, schema: Schema) returns (final: Config)
    ensures final == Merge(control, envKeys, schema)
    ensures forall k :: k in final <==> k in control || (k in envKeys && k in schema)
    ensures forall k :: k in final ==> final[k] == if k in envKeys && k in schema then Str(envKeys[k]) else control[k]
  {
    final := CopyConfig(control);
    var left := schema.Keys;
    while left != {}
      invariant left <= schema.Keys
      invariant forall k :: k in final <==> k in control || (k in envKeys && k in schema && k !in left)
      invariant forall k :: k in envKeys && k in schema && k !in left ==> final[k] == Str(envKeys[k])
      invariant forall k :: k in control && (k in left || k !in envKeys || k !in schema) ==> final[k] == control[k]
      decreases |left|
    {
      var k :| k in left;
      left := left - {k};
      if k in envKeys {
        final := final[k := Str(envKeys[k])];
      }
    }
    MergeByKey(control, envKeys, schema, final);
  }

  lemma MergeByKey(control: Config, envKeys: map<string, string>, schema: Schema, final: Config)
    requires forall k :: k in final <==> k in control || (k in envKeys && k in schema)
    requires forall k :: k in envKeys && k in schema ==> final[k] == Str(envKeys[k])
    requires forall k :: k in control && (k !in envKeys || k !in schema) ==> final[k] == control[k]
    ensures final == Merge(control, envKeys, schema)
  {}

  /** Key by key: what the merged configuration holds. */
  lemma MergedValue(control: Config, schema: Schema, idx: Index, k: string)
    ensures var final := Merge(control, EnvOverrides(schema, idx), schema);
      if k in schema && FromEnv(idx, k) then k in final && final[k] == Str(LookupSchemaEnv(idx, k).value)
      else (k in final <==> k in control) && (k in final ==> final[k] == control[k])
  {}

  /** A key has a value after merging exactly when the environment or Control gives it one. */
  lemma MergedHasValueIff(control: Config, schema: Schema, idx: Index, k: string)
    requires k in schema
    ensures HasValue(Merge(control, EnvOverrides(schema, idx), schema), k) <==> FromEnv(idx, k) || HasValue(control, k)
  {
    MergedValue(control, schema, idx, k);
  }

  /** Merging un-satisfies neither what the environment alone satisfied nor what Control did. */
  lemma MergeKeepsSatisfied(control: Config, schema: Schema, idx: Index)
    requires Satisfied(schema, EnvOnly(schema, idx)) || Satisfied(schema, control)
    ensures Satisfied(schema, Merge(control, EnvOverrides(schema, idx), schema))
  {
    EnvOnlyValues(schema, idx);
    forall k | k in schema && Demands(schema[k]) ensures HasValue(Merge(control, EnvOverrides(schema, idx), schema), k) {
      MergedHasValueIff(control, schema, idx, k);
    }
  }

  /** Merging twice with the same environment changes nothing more. */
  lemma MergeIdempotent(control: Config, schema: Schema, idx: Index)
    ensures var e := EnvOverrides(schema, idx); Merge(Merge(control, e, schema), e, schema) == Merge(control, e, schema)
  {}
}
