/**
 Configuration normalisation of `Scriptable` (index.js:50-98): reading the
 legacy `custom.scriptHooks` and current `custom.scriptable` namespaces,
 merging their hook maps, and resolving the three output flags.
 */
module Config {
  import opened Js
  import opened Errors

  const ShowCommands: string := "showCommands"
  const ShowStdoutOutput: string := "showStdoutOutput"
  const ShowStderrOutput: string := "showStderrOutput"

  /** The flag names that share the legacy namespace with hook names. */
  const ReservedFlags: set<string> := {ShowCommands, ShowStdoutOutput, ShowStderrOutput}

  /** `isFalse(val)`: `val != null && !val`. */
  function IsFalse(v: JsValue): (r: bool)
    ensures r <==> v == Bool(false) || v == Num(0) || v == NaN || v == Str("")
  {
    !IsNullish(v) && !Truthy(v)
  }

  /** `first(...vals)`: the first value that is not `undefined`; `null`
      counts as a value. */
  function First(vals: seq<JsValue>): (r: JsValue)
    ensures r.Undefined? <==> forall i :: 0 <= i < |vals| ==> vals[i].Undefined?
    ensures !r.Undefined? ==>
      exists i :: 0 <= i < |vals| && vals[i] == r && forall j :: 0 <= j < i ==> vals[j].Undefined?
  {
    if |vals| == 0 then Undefined
    else if !vals[0].Undefined? then vals[0]
    else
      var r := First(vals[1..]);
      assert !r.Undefined? ==> exists i :: 1 <= i < |vals| && vals[i] == r && forall j :: 0 <= j < i ==> vals[j].Undefined? by {
        if !r.Undefined? {
          var i :| 0 <= i < |vals[1..]| && vals[1..][i] == r && forall j :: 0 <= j < i ==> vals[1..][j].Undefined?;
          assert vals[i + 1] == r;
          assert forall j :: 0 <= j < i + 1 ==> vals[j].Undefined? by {
            forall j | 0 <= j < i + 1 ensures vals[j].Undefined? {
              if j > 0 { assert vals[j] == vals[1..][j - 1]; }
            }
          }
        }
      }
      r
  }

  /** With two candidates, `first(current, legacy)` takes the legacy value
      exactly when the current one is `undefined`. */
  lemma FirstOfTwo(current: JsValue, legacy: JsValue)
    ensures First([current, legacy]) == if current.Undefined? then legacy else current
  {
    if current.Undefined? {
      assert [current, legacy][1..] == [legacy];
    }
  }

  /** Whether `this.serverless.service` can be destructured: reading it from
      `null`/`undefined` throws a `TypeError`. */
  predicate ServiceReachable(serverless: JsValue): (r: bool)
    ensures r <==> serverless.Obj? && "service" in serverless.props && !IsNullish(serverless.props["service"])
  {
    !IsNullish(serverless) && !IsNullish(Prop(serverless, "service"))
  }

  /** `this.serverless.service.custom`: the service's own `custom`
      property, `undefined` when it has none. */
  function Custom(serverless: JsValue): (r: JsValue)
    requires ServiceReachable(serverless)
    ensures var service := serverless.props["service"];
      r == if service.Obj? && "custom" in service.props then service.props["custom"] else Undefined
  {
    Prop(Prop(serverless, "service"), "custom")
  }

  /** `getScripts(namespace)`: `custom && custom[namespace]`. */
  function GetScripts(serverless: JsValue, namespace: string): (r: Result<JsValue>)
    ensures r.Success? <==> ServiceReachable(serverless)
    ensures r.Failure? ==> r.error == TypeError
    ensures r.Success? && !Truthy(Custom(serverless)) ==> !Truthy(r.value)
    ensures r.Success? && Custom(serverless).Obj? ==>
      r.value == (if namespace in Custom(serverless).props then Custom(serverless).props[namespace] else Undefined)
    ensures r.Success? && Truthy(Custom(serverless)) && !Custom(serverless).Obj? ==> r.value == Undefined
  {
    if !ServiceReachable(serverless) then Failure(TypeError)
    else
      var custom := Custom(serverless);
      Success(if Truthy(custom) then Prop(custom, namespace) else custom)
  }

  /** `getScripts(namespace) || {}`: a namespace, defaulting to an empty object. */
  function Namespace(serverless: JsValue, namespace: string): (r: JsValue)
    requires ServiceReachable(serverless)
    ensures Truthy(r) && !IsNullish(r)
    ensures !Truthy(Custom(serverless)) ==> r == Obj(map[])
    ensures Truthy(GetScripts(serverless, namespace).value) ==> r == GetScripts(serverless, namespace).value
    ensures !Truthy(GetScripts(serverless, namespace).value) ==> r == Obj(map[])
    ensures Custom(serverless).Obj? && namespace !in Custom(serverless).props ==> r == Obj(map[])
  {
    Or(GetScripts(serverless, namespace).value, Obj(map[]))
  }

  /** The normalised configuration `getMergedConfig` returns. */
  datatype Merged = Merged(
    showCommands: JsValue,
    showStdoutOutput: JsValue,
    showStderrOutput: JsValue,
    hooks: map<string, JsValue>,
    commands: JsValue)

  /** `v` is the flag `name` resolved with the current namespace taking
      precedence whenever it defines the flag at all. */
  predicate ResolvedFrom(v: JsValue, current: JsValue, legacy: JsValue, name: string)
    requires !IsNullish(current) && !IsNullish(legacy)
  {
    if Prop(current, name).Undefined? then v == Prop(legacy, name) else v == Prop(current, name)
  }

  /** `getMergedConfig()` (index.js:50-66). */
  function GetMergedConfig(serverless: JsValue): (r: Result<Merged>)
    ensures r.Success? <==> ServiceReachable(serverless)
    ensures r.Failure? ==> r.error == TypeError
    ensures r.Success? ==>
      var legacy := Namespace(serverless, "scriptHooks");
      var current := Namespace(serverless, "scriptable");
      var legacyHooks := OwnEntries(legacy);
      var currentHooks := OwnEntries(Prop(current, "hooks"));
      && r.value.hooks.Keys == (legacyHooks.Keys + currentHooks.Keys) - ReservedFlags
      && (forall k :: k in r.value.hooks && k in currentHooks ==> r.value.hooks[k] == currentHooks[k])
      && (forall k :: k in r.value.hooks && k !in currentHooks ==> r.value.hooks[k] == legacyHooks[k])
      && ResolvedFrom(r.value.showCommands, current, legacy, ShowCommands)
      && ResolvedFrom(r.value.showStdoutOutput, current, legacy, ShowStdoutOutput)
      && ResolvedFrom(r.value.showStderrOutput, current, legacy, ShowStderrOutput)
      && Truthy(r.value.commands)
      && (Truthy(Prop(current, "commands")) ==> r.value.commands == Prop(current, "commands"))
      && (!Truthy(Prop(current, "commands")) ==> r.value.commands == Obj(map[]))
  {
    // Both `getScripts` calls throw alike when the service is unreachable.
    if !ServiceReachable(serverless) then Failure(TypeError)
    else
    var legacy := Namespace(serverless, "scriptHooks");
    var current := Namespace(serverless, "scriptable");
    var hooks := (OwnEntries(legacy) + OwnEntries(Prop(current, "hooks"))) - ReservedFlags;
    FirstOfTwo(Prop(current, ShowCommands), Prop(legacy, ShowCommands));
    FirstOfTwo(Prop(current, ShowStdoutOutput), Prop(legacy, ShowStdoutOutput));
    FirstOfTwo(Prop(current, ShowStderrOutput), Prop(legacy, ShowStderrOutput));
    Success(Merged(
      First([Prop(current, ShowCommands), Prop(legacy, ShowCommands)]),
      First([Prop(current, ShowStdoutOutput), Prop(legacy, ShowStdoutOutput)]),
      First([Prop(current, ShowStderrOutput), Prop(legacy, ShowStderrOutput)]),
      hooks,
      Or(Prop(current, "commands"), Obj(map[]))))
  }
}
