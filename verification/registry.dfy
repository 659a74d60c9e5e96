/**
 Construction of a `Scriptable` instance (index.js:18-85): the output flags it
 settles on, the hook actions it registers for lifecycle events and custom
 commands, and the command descriptors it hands to the host framework.
 */
module Registry {
  import opened Js
  import opened Errors
  import opened Config
  import opened Executor

  /** A custom command as the host framework lists it. */
  datatype Descriptor = Descriptor(usage: string, lifecycleEvents: seq<string>)

  /** A constructed plugin. A registered action is the closure
      `runScript(spec)`; it is represented by the spec it closes over. */
  datatype Plugin = Plugin(
    settings: Settings,
    hooks: map<string, JsValue>,
    commands: map<string, Descriptor>,
    log: seq<string>)

  /** The settings of a fresh instance before the configuration is read. */
  const Defaults: Settings := Settings(true, Inherit, Inherit)

  const CommandSuffix: string := ":command"
  const NoStdoutLine: string := "Not showing command output because showStdoutOutput is false"
  const NoStderrLine: string := "Not showing command error output because showStderrOutput is false"

  /** The lifecycle event under which a custom command's action runs. */
  function CommandEvent(name: string): string {
    name + CommandSuffix
  }

  /** Distinct command names get distinct events. */
  lemma CommandEventInjective(a: string, b: string)
    requires CommandEvent(a) == CommandEvent(b)
    ensures a == b
  {
    assert a == CommandEvent(a)[..|a|];
    assert b == CommandEvent(b)[..|b|];
  }

  function CommandEvents(names: set<string>): set<string> {
    set n | n in names :: CommandEvent(n)
  }

  /** `setupHooks(hooks)`: an action for every merged hook key, assigned
      over whatever `registered` already holds. */
  function SetupHooks(registered: map<string, JsValue>, hooks: map<string, JsValue>): (r: map<string, JsValue>)
    ensures r.Keys == registered.Keys + hooks.Keys
    ensures forall e :: e in hooks ==> r[e] == hooks[e]
    ensures forall e :: e in registered && e !in hooks ==> r[e] == registered[e]
  {
    registered + hooks
  }

  /** The actions `setupCustomCommands(commands)` adds, one per command. */
  function CommandHooks(commands: map<string, JsValue>): (r: map<string, JsValue>)
    ensures r.Keys == CommandEvents(commands.Keys)
    ensures forall n :: n in commands ==> r[CommandEvent(n)] == commands[n]
  {
    forall a, b | CommandEvent(a) == CommandEvent(b)
      ensures a == b
    {
      CommandEventInjective(a, b);
    }
    map n | n in commands :: CommandEvent(n) := commands[n]
  }

  /** The usage text of a command: `Run ${spec}`. */
  function Usage(spec: JsValue): string {
    "Run " + ToString(spec)
  }

  /** The descriptors `setupCustomCommands(commands)` adds. */
  function CommandDescriptors(commands: map<string, JsValue>): (r: map<string, Descriptor>)
    ensures r.Keys == commands.Keys
    ensures forall n :: n in commands ==>
      r[n].usage == "Run " + ToString(commands[n]) && r[n].lifecycleEvents == ["command"]
  {
    map n | n in commands :: Descriptor(Usage(commands[n]), ["command"])
  }

  /** The instance fields the constructor settles on (index.js:25-44):
      each switch is turned off exactly when its flag `isFalse`. */
  function SettingsOf(m: Merged): (st: Settings)
    ensures st.showCommands <==> !IsFalse(m.showCommands)
    ensures st.stdout == Ignore <==> IsFalse(m.showStdoutOutput)
    ensures st.stderr == Ignore <==> IsFalse(m.showStderrOutput)
  {
    Settings(
      !IsFalse(m.showCommands),
      if IsFalse(m.showStdoutOutput) then Ignore else Inherit,
      if IsFalse(m.showStderrOutput) then Ignore else Inherit)
  }

  /** The lines the constructor logs when it silences an output stream. */
  function StartupLog(m: Merged): (log: seq<string>)
    ensures NoStdoutLine in log <==> IsFalse(m.showStdoutOutput)
    ensures NoStderrLine in log <==> IsFalse(m.showStderrOutput)
    ensures |log| == (if IsFalse(m.showStdoutOutput) then 1 else 0) + (if IsFalse(m.showStderrOutput) then 1 else 0)
    ensures IsFalse(m.showStdoutOutput) ==> log[0] == NoStdoutLine
    ensures IsFalse(m.showStderrOutput) ==> log[|log| - 1] == NoStderrLine
  {
    (if IsFalse(m.showStdoutOutput) then [NoStdoutLine] else [])
      + (if IsFalse(m.showStderrOutput) then [NoStderrLine] else [])
  }

  /** `setupHooks(hooks)` followed by `setupCustomCommands(commands)`: a
      command's action overwrites a hook registered under the same event. */
  function RegisteredHooks(hooks: map<string, JsValue>, commands: map<string, JsValue>): (r: map<string, JsValue>)
    ensures r.Keys == hooks.Keys + CommandEvents(commands.Keys)
    ensures forall n :: n in commands ==> r[CommandEvent(n)] == commands[n]
    ensures forall e :: e in hooks && e !in CommandEvents(commands.Keys) ==> r[e] == hooks[e]
  {
    SetupHooks(map[], hooks) + CommandHooks(commands)
  }

  /** `new Scriptable(serverless)` (index.js:19-48). */
  function Construct(serverless: JsValue): (r: Result<Plugin>)
    ensures r.Success? <==> ServiceReachable(serverless)
    ensures r.Failure? ==> r.error == TypeError
    ensures r.Success? ==>
      var m := GetMergedConfig(serverless).value;
      var commands := OwnEntries(m.commands);
      && r.value.settings == SettingsOf(m)
      && r.value.log == StartupLog(m)
      && r.value.hooks == RegisteredHooks(m.hooks, commands)
      && r.value.commands == CommandDescriptors(commands)
  {
    if !ServiceReachable(serverless) then Failure(TypeError)
    else
      var m := GetMergedConfig(serverless).value;
      var commands := OwnEntries(m.commands);
      Success(Plugin(SettingsOf(m), RegisteredHooks(m.hooks, commands), CommandDescriptors(commands), StartupLog(m)))
  }

  /** `this.hooks[event]()`: the action registered for `event`. */
  function Invoke<W(!new)>(rt: Runtime<W>, p: Plugin, event: string, w: W): (r: Run<W>)
    requires event in p.hooks
    ensures r.started <= |Entries(p.hooks[event])|
    ensures p.hooks[event] == Arr([]) ==> r == Run(w, [], 0, Done)
  {
    RunEntries(rt, p.settings, Entries(p.hooks[event]), w)
  }

  /** Without a `custom` section nothing is registered and every setting keeps
      its default. */
  lemma NoCustomSectionRegistersNothing(serverless: JsValue)
    requires ServiceReachable(serverless)
    requires !Truthy(Custom(serverless))
    ensures Construct(serverless) == Success(Plugin(Defaults, map[], map[], []))
  {
    var m := GetMergedConfig(serverless).value;
    assert m.hooks.Keys == {};
    assert OwnEntries(m.commands) == map[];
    assert CommandEvents({}) == {};
  }

  /** A flag the current `scriptable` section defines decides the setting,
      whatever the legacy `scriptHooks` section says; otherwise the legacy
      value does. */
  lemma CurrentFlagsOverrideLegacy(serverless: JsValue)
    requires ServiceReachable(serverless)
    ensures
      var p := Construct(serverless).value;
      var legacy := Namespace(serverless, "scriptHooks");
      var current := Namespace(serverless, "scriptable");
      var pick := (name: string) =>
        if Prop(current, name).Undefined? then Prop(legacy, name) else Prop(current, name);
      && (p.settings.showCommands <==> !IsFalse(pick(ShowCommands)))
      && (p.settings.stdout == Ignore <==> IsFalse(pick(ShowStdoutOutput)))
      && (p.settings.stderr == Ignore <==> IsFalse(pick(ShowStderrOutput)))
  {
    var m := GetMergedConfig(serverless).value;
    assert Construct(serverless).value.settings == SettingsOf(m);
  }

  /** A hook named in both sections runs the current section's spec, unless a
      custom command's event shadows it. */
  lemma CurrentHooksOverrideLegacy(serverless: JsValue, event: string)
    requires ServiceReachable(serverless)
    ensures
      var currentHooks := OwnEntries(Prop(Namespace(serverless, "scriptable"), "hooks"));
      var commands := OwnEntries(GetMergedConfig(serverless).value.commands);
      var hooks := Construct(serverless).value.hooks;
      event in currentHooks && event !in ReservedFlags && event !in CommandEvents(commands.Keys) ==>
        event in hooks && hooks[event] == currentHooks[event]
  {
  }
}
