/**
 * The configuration gate in front of the MCP handler (middleware.go): when Control is asked, when the request is
 * refused and with which status, and which configuration the handler is given. What Control answers comes from
 * the cached fetch and is a parameter.
 */
module Middleware {
  import opened Text
  import opened EnvConfig

  /** The request body as needsResolvedConfig sees it. */
  datatype Body = NoBody | Unreadable | NotJson | Rpc(name: string)

  predicate NoConfigMethod(name: string) {
    name == "tools/list" || name == "initialize" || name == "notifications/initialized"
  }

  predicate NeedsResolvedConfig(body: Body) {
    !(body.Rpc? && NoConfigMethod(body.name))
  }

  /** ControlFailed: a ControlError's status, or none for any other error. */
  datatype ControlResult = Resolved(config: Config) | ControlFailed(status: Option<int>)

  datatype Settings = Settings(fetchRequiredEnv: string, controlURLEnv: string, schema: Schema, environ: seq<string>)

  datatype Request = Request(schemaEndpoint: bool, token: string, body: Body)

  datatype Outcome = SchemaServed | Refused(status: int) | Next(config: Config)

  predicate FetchRequired(s: Settings) {
    ToLower(s.fetchRequiredEnv) != "false"
  }

  predicate HasControl(s: Settings) {
    TrimSpace(s.controlURLEnv) != ""
  }

  /** Control is asked, if it is there and the caller has a token. */
  predicate Asked(s: Settings, r: Request) {
    s.schema != map[] && NeedsResolvedConfig(r.body) && HasControl(s) && r.token != ""
  }

  predicate EnvSuffices(s: Settings) {
    Satisfied(s.schema, EnvOnly(s.schema, EnvIndex(s.environ)))
  }

  /** The request goes on only if nothing is needed, nothing is enforced, Control answered, or the environment suffices. */
  predicate Passes(s: Settings, r: Request, control: ControlResult) {
    || s.schema == map[] || !NeedsResolvedConfig(r.body) || !FetchRequired(s)
    || (Asked(s, r) && control.Resolved?) || EnvSuffices(s)
  }

  /** What the handler is given: the environment for schema keys that have a value there, else Control's answer if there is one. */
  function FinalConfig(s: Settings, r: Request, control: ControlResult): Config {
    Merge(if Asked(s, r) && control.Resolved? then control.config else map[], EnvOverrides(s.schema, EnvIndex(s.environ)), s.schema)
  }

  /**
   * On the settings as they are given: a request goes on if and only if there is no schema, its method needs no
   * configuration, fetching is not required, Control answered, or the environment sets every required key.
   */
  lemma PassesIff(s: Settings, r: Request, control: ControlResult)
    ensures Passes(s, r, control) <==>
              || s.schema == map[]
              || (r.body.Rpc? && r.body.name in ["tools/list", "initialize", "notifications/initialized"])
              || ToLower(s.fetchRequiredEnv) == "false"
              || (TrimSpace(s.controlURLEnv) != "" && r.token != "" && control.Resolved?)
              || forall k :: k in s.schema && s.schema[k].Meta? && s.schema[k].required && !s.schema[k].hasDefault ==>
                   Sets(s.environ, k) || Sets(s.environ, "AR_" + k)
  {
    EnvOnlyValues(s.schema, EnvIndex(s.environ));
    forall k ensures FromEnv(EnvIndex(s.environ), k) <==> Sets(s.environ, k) || Sets(s.environ, "AR_" + k) {
      FromEnvIff(s.environ, k);
    }
  }

  lemma AskedIff(s: Settings, r: Request)
    ensures Asked(s, r) <==>
              && s.schema != map[] && TrimSpace(s.controlURLEnv) != "" && r.token != ""
              && !(r.body.Rpc? && r.body.name in ["tools/list", "initialize", "notifications/initialized"])
  {}

  /** What the client sees of a status of Control: never Control's own 401 or 403, and always an error. */
  function ClientStatus(status: int): (r: int)
    ensures 400 <= r < 600
    ensures r != 401 && r != 403
    ensures r == status <==> 400 <= status < 600 && status != 401 && status != 403
    ensures status == 401 || status == 403 ==> r == 422
    ensures status < 400 || status >= 600 ==> r == 502
  {
    if status == 401 || status == 403 then 422 else if status < 400 || status >= 600 then 502 else status
  }

  method Handle(s: Settings, r: Request, control: ControlResult) returns (out: Outcome)
    ensures out.SchemaServed? <==> r.schemaEndpoint
    ensures out.Next? <==> !r.schemaEndpoint && Passes(s, r, control)
    ensures out.Next? ==> out.config == FinalConfig(s, r, control)
    ensures out.Refused? ==> 400 <= out.status < 600
    ensures out.Refused? && TrimSpace(s.controlURLEnv) == "" ==> out.status == 503
    ensures out.Refused? && TrimSpace(s.controlURLEnv) != "" ==> (out.status == 401 <==> r.token == "")
    ensures out.Refused? && TrimSpace(s.controlURLEnv) != "" && r.token != "" ==>
              control.ControlFailed? && out.status == if control.status.Some? then ClientStatus(control.status.value) else 502
  {
    var configRequired := ToLower(s.fetchRequiredEnv) != "false";
    var controlBase := TrimSpace(s.controlURLEnv);
    var wantControl := s.schema != map[];
    if r.schemaEndpoint {
      return SchemaServed;
    }
    var cfg: Config := map[];
    var needConfig := NeedsResolvedConfig(r.body);
    var envIdx := NewLowercaseEnvIndex(s.environ);
    var envKeys := EnvOverridesFromSchema(s.schema, envIdx);
    var envAlone := EnvAloneSatisfiesRequired(s.schema, envIdx);
    if wantControl && needConfig {
      var tryControl := controlBase != "" && r.token != "";
      if tryControl {
        if control.ControlFailed? {
          if configRequired && !envAlone {
            var status := 502;
            if control.status.Some? {
              status := control.status.value;
              if status == 401 || status == 403 {
                status := 422;
              }
            }
            if status < 400 || status >= 600 {
              status := 502;
            }
            return Refused(status);
          }
        } else {
          cfg := control.config;
        }
      } else {
        if controlBase == "" && configRequired && !envAlone {
          return Refused(503);
        }
        if controlBase != "" && r.token == "" && configRequired && !envAlone {
          return Refused(401);
        }
      }
    }
    var finalCfg := MergeControlWithEnvPriority(cfg, envKeys, s.schema);
    return Next(finalCfg);
  }

  /**
   * Where configuration is needed and enforced, the handler runs only with Control's answer, or with a
   * configuration that has every required key.
   */
  lemma RunsResolvedOrSatisfied(s: Settings, r: Request, control: ControlResult)
    requires Passes(s, r, control)
    requires s.schema != map[] && NeedsResolvedConfig(r.body) && FetchRequired(s)
    ensures (Asked(s, r) && control.Resolved?) || Satisfied(s.schema, FinalConfig(s, r, control))
  {
    if EnvSuffices(s) {
      MergeKeepsSatisfied(if Asked(s, r) && control.Resolved? then control.config else map[], s.schema, EnvIndex(s.environ));
    }
  }

  /** Key by key: the environment wins on schema keys, and everything else is Control's. */
  lemma FinalConfigValue(s: Settings, r: Request, control: ControlResult, k: string)
    ensures var final := FinalConfig(s, r, control); var idx := EnvIndex(s.environ);
      if k in s.schema && FromEnv(idx, k) then k in final && final[k] == Str(LookupSchemaEnv(idx, k).value)
      else if Asked(s, r) && control.Resolved? then
        (k in final <==> k in control.config) && (k in final ==> final[k] == control.config[k])
      else k !in final
  {
    MergedValue(if Asked(s, r) && control.Resolved? then control.config else map[], s.schema, EnvIndex(s.environ), k);
  }

  /** All required keys are there exactly when each has a value in the environment or in Control's answer. */
  lemma FinalSatisfiedIff(s: Settings, r: Request, control: ControlResult)
    ensures Satisfied(s.schema, FinalConfig(s, r, control)) <==>
              forall k :: k in s.schema && Demands(s.schema[k]) ==>
                FromEnv(EnvIndex(s.environ), k) || (Asked(s, r) && control.Resolved? && HasValue(control.config, k))
  {
    var c: Config := if Asked(s, r) && control.Resolved? then control.config else map[];
    forall k | k in s.schema
      ensures HasValue(FinalConfig(s, r, control), k) <==> FromEnv(EnvIndex(s.environ), k) || HasValue(c, k)
    {
      MergedHasValueIff(c, s.schema, EnvIndex(s.environ), k);
    }
  }

  /**
   * Control's answer is not checked for required keys: the handler runs without one exactly when neither
   * the environment nor Control has it, although configuration is needed and enforced.
   */
  lemma ResolvedMayLackRequired(s: Settings, r: Request, control: ControlResult, k: string)
    requires Asked(s, r) && control.Resolved? && k in s.schema && Demands(s.schema[k])
    ensures Passes(s, r, control)
    ensures !HasValue(FinalConfig(s, r, control), k) <==> !FromEnv(EnvIndex(s.environ), k) && !HasValue(control.config, k)
  {
    MergedHasValueIff(control.config, s.schema, EnvIndex(s.environ), k);
  }
}
