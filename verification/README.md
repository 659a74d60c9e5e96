# serverless-scriptable-plugin, modelled in Dafny

`serverless-scriptable-plugin` lets a Serverless Framework service attach
shell commands and JavaScript files to lifecycle events. Its `Scriptable`
class (index.js) does three things, and this project models each of them:

- **Configuration.** It reads two namespaces of `custom`. The legacy one is
  `scriptHooks`; the current one is `scriptable`. It merges their hook maps
  and resolves the flags `showCommands`, `showStdoutOutput` and
  `showStderrOutput`. This is module `Config`.
- **Registration.** It registers one action per hook event and one per custom
  command. A command's action goes under the event `<name>:command`. It also
  hands the host framework a descriptor for each command. This is module
  `Registry`.
- **Execution.** When an action runs, it normalises its spec to a list. Each
  entry is an existing `.js` file or a shell command. The entries run strictly
  in order, and the first failure ends the run. This is module `Executor`,
  with Node's POSIX `path.extname` in `NodePath`.

A fourth module, `PackageBuilder`, models a separate class from the
repository's packaging example
(examples/babel-then-package-to-zip/build/PackageBuilder.js). A build script
run as a hook uses it to decide which dependency folders printed by `npm ls`
go into the deployment archive.

Two supporting modules:

- `Js` models the JavaScript values the configuration is made of. It covers
  truthiness, `!= null`, `||`, property reads, object spread and
  `Object.keys`, and template-literal conversion.
- `Errors` models what can be thrown: a `TypeError`, the plugin's
  `SimpleError`, or a value a script throws.

Process spawning and script evaluation are not modelled. They are the three
functions of a `Runtime` record: `pathExists`, `exec` and `eval`. These act
on an abstract world `W` that a run threads from one entry to the next.

Where the code and the documentation differ, the model follows the code:

- An entry runs as JavaScript only if the path exists **and** its extension
  is `.js`. Existence alone is not enough (index.js:105).
- `execSync` throws before it spawns anything when the command is not a
  string, is the empty string, or holds a NUL character. The plugin reports
  each of these as a failed command, and the world is unchanged.
- `fs.existsSync` answers false for a string holding a NUL character, since
  Node's path validation rejects it. So such an entry never runs as
  JavaScript: it goes to `runCommand`, which fails as above.
- Reading `this.serverless.service` from a missing `serverless` or `service`
  throws a `TypeError`. So `Construct` returns a `Result`.

## Model

| member | source | states |
|---|---|---|
| `Config.IsFalse` | index.js:87-89 | a flag counts as false exactly for `false`, `0`, `NaN` and `""`; `null` and `undefined` do not |
| `Config.First` | index.js:91-93 | the result is `undefined` iff every candidate is; otherwise it is the first candidate that is not `undefined` (`null` counts as a value) |
| `Config.FirstOfTwo` | index.js:60-62 | with two candidates, the legacy value is taken exactly when the current one is `undefined` |
| `Config.ServiceReachable` | index.js:96 | destructuring `this.serverless.service` succeeds iff `serverless` is an object with a `service` property that is neither `null` nor `undefined` |
| `Config.Custom` | index.js:96 | `custom` is the service's own `custom` property, or `undefined` when it has none |
| `Config.GetScripts` | index.js:95-98 | throws `TypeError` iff `serverless` or `service` is nullish; no `custom` section gives a falsy result; a `custom` object gives the namespace's own property or `undefined`; a truthy `custom` that is not an object gives `undefined` |
| `Config.Namespace` | index.js:51-52 | `getScripts(ns) \|\| {}`: the `getScripts` value unchanged when it is truthy, otherwise `{}`; so `{}` when there is no `custom` section or it lacks the namespace |
| `Config.GetMergedConfig` | index.js:50-66 | hook keys are the union of legacy keys and current `hooks` keys minus the three flag names; a current hook overrides a legacy one; each flag is the current value unless that is `undefined`; `commands` is the current commands when those are truthy and `{}` otherwise |
| `Registry.SetupHooks` | index.js:68-73 | every hook key gets an action running its own spec, and every action registered before keeps its spec unless a hook key overwrites it |
| `Registry.CommandEventInjective` | index.js:78 | distinct command names map to distinct `<name>:command` events |
| `Registry.CommandHooks` | index.js:77-78 | one action per command, under `<name>:command` and no other event, running that command's spec |
| `Registry.CommandDescriptors` | index.js:80-83 | one descriptor per command, with usage `Run ${spec}` and lifecycle events `["command"]` |
| `Registry.SettingsOf` | index.js:28-44 | `showCommands` is off, and stdout and stderr are `'ignore'`, exactly when the corresponding merged flag is false |
| `Registry.StartupLog` | index.js:36-44 | a notice is logged for a silenced stream exactly when that stream's flag is false, and nothing else; the stdout notice comes first |
| `Registry.RegisteredHooks` | index.js:68-85 | the registered events are the hook keys plus every command event; a command's action replaces a hook under the same event; every other hook keeps its spec |
| `Registry.Construct` | index.js:19-48 | construction throws `TypeError` iff the service is unreachable; otherwise settings, startup log, hooks and command descriptors are those of the merged configuration |
| `Registry.Invoke` | index.js:100-112 | calling a registered action starts at most as many entries as its spec has, and an empty array runs nothing |
| `Registry.NoCustomSectionRegistersNothing` | index.js:19-48 | without a `custom` section there are no hooks, no commands and no log, and every setting keeps its default |
| `Registry.CurrentFlagsOverrideLegacy` | index.js:30-44 | a flag in `scriptable` decides its setting whatever `scriptHooks` says; otherwise the legacy flag does |
| `Registry.CurrentHooksOverrideLegacy` | index.js:54 | a hook in both namespaces runs the `scriptable` spec unless a command event shadows it |
| `NodePath.TrimTrailingSlashes` | index.js:105 | the result is a prefix of the path that does not end in `/`, and only `/` characters were removed |
| `NodePath.LastComponent` | index.js:105 | the result is the suffix after the last `/` and contains no `/` |
| `NodePath.LastDot` | index.js:105 | the index of the last `.` of a component, or -1 when it has none |
| `NodePath.ComponentExtname` | index.js:105 | the extension of a last component is empty or starts with its only `.`, has no `/`, ends the path and is shorter than the component; it is non-empty whenever the component has a `.` after its first character and is not `..`, so it is the text from the last `.`; it is empty for `..` |
| `NodePath.Extname` | index.js:105 | `path.extname` is empty or a `.` followed by characters that are neither `.` nor `/`; it ends the path with trailing slashes ignored and is shorter than the last component; it is non-empty whenever that component has a `.` after its first character and is not `..`, and empty when that component is `..` |
| `NodePath.ExtnameOfHiddenFile` | index.js:105 | a file named `.js` has no extension |
| `NodePath.ExtnameOfScript` | index.js:105 | a script path such as `/tmp/hook.js` has the extension `.js` |
| `NodePath.ExtnameIsJs` | index.js:105 | `path.extname(p) === '.js'` iff `p`, ignoring trailing slashes, ends in `.js` preceded by a character of the same component |
| `Errors.NewSimpleError` | index.js:10-16 | a `SimpleError` carries the given message and a `null` stack |
| `Executor.Entries` | index.js:102 | an array spec runs its elements; any other spec runs as a one-element list |
| `Executor.Announcement` | index.js:114-129 | a JavaScript file is announced as `Running javascript file: <path>`, a command as `Running command: <script>`, written as a template literal writes it |
| `Executor.Classify` | index.js:105-109 | an entry runs as a JavaScript file iff it is a string without a NUL character naming an existing path whose extension is `.js`; otherwise it runs as a command |
| `Executor.HiddenJsFileRunsAsCommand` | index.js:105-109 | an entry `.js` runs as a command even when the file exists |
| `Executor.Spawnable` | index.js:120 | `execSync` rejects a value that is not a string, the empty string and a string holding NUL, and accepts every other string |
| `Executor.RunCommand` | index.js:114-124 | one entry is started; it fails iff `execSync` rejects the script (not a string, empty, or holding NUL) or the command exits with a non-zero status, always with `SimpleError("Failed to run command: " + script)` and a null stack; the trace is the announcement (iff `showCommands`) followed by one spawn with the instance's stdout and stderr for an accepted script and nothing else; the world is the one the command leaves, unchanged for a rejected script |
| `Executor.NulEntryFails` | index.js:104-124 | an entry holding NUL fails with `Failed to run command: <entry>`, spawns nothing and leaves the world unchanged, whatever the runtime says about the path |
| `Executor.EmptyCommandFails` | index.js:114-124 | an empty command fails with `Failed to run command: `, spawns nothing and leaves the world unchanged |
| `Executor.RunJavascriptFile` | index.js:126-167 | the trace is the announcement (iff `showCommands`) followed by exactly one evaluation of the file; the world is the one the script leaves; whatever it throws is propagated unchanged |
| `Executor.RunEntry` | index.js:104-110 | one entry starts; with `showCommands` its first event is the announcement of its classification, and without it there are no log lines; a JavaScript file leaves the evaluation's world and fails iff the script throws, with the thrown value; a command leaves the spawn's world (the same world when `execSync` rejects it) and fails iff it is rejected or exits non-zero, with the command failure error; the trace is exactly the announcement (iff `showCommands`) followed by the file's evaluation, or the command's spawn with the instance's stdout and stderr when `execSync` accepts it |
| `Executor.Sequence` | index.js:104-110 | iterating entries with a step that starts one entry each starts no more entries than there are; a successful run started every entry, and a failed run started at least one |
| `Executor.SequenceAppend` | index.js:104-110 | running `a + b` is running `a`, then `b` from the world `a` left, unless `a` failed |
| `Executor.StepOf` | index.js:104-110 | the iterator of `runScript` starts exactly one entry per call, and runs it as `RunEntry` does |
| `Executor.RunEntries` | index.js:100-112 | an action's run starts no more entries than its spec has, and a successful run started all of them |
| `Executor.FailureStopsLaterEntries` | index.js:104-110 | once a prefix fails, later entries never start and the failure is the run's |
| `Executor.FirstFailureEndsRun` | index.js:104-110 | a failing run ends at its last started entry: every earlier entry succeeded and the run equals the run of exactly that prefix |
| `Executor.SuccessRanEveryEntry` | index.js:104-110 | in a successful run every entry ran after its predecessors succeeded, and succeeded itself |
| `Executor.TwoCommandsRunInOrder` | index.js:100-124 | two succeeding entries that do not run as JavaScript files, existing non-`.js` files included, are announced as commands and spawned in order, the second in the world the first left |
| `Executor.QuietStepOmitsOnlyAnnouncement` | index.js:114-129 | for one entry, turning `showCommands` off removes the announcement and nothing else |
| `Executor.WithoutLogsAppend` | index.js:114-129 | removing log lines from a concatenated trace removes them from each part |
| `Executor.NoLogsUnchanged` | index.js:114-129 | a trace without log lines is unchanged by removing log lines |
| `Executor.QuietRunOmitsOnlyAnnouncements` | index.js:114-129 | turning `showCommands` off removes exactly the announcement lines; the worlds, spawns, entries started and outcome are the same |
| `Executor.Each` | index.js:104-110 | the sequential loop that awaits each entry and leaves at the first failure computes the same run as `Sequence` |
| `Executor.Injected` | index.js:148-157 | the injected bindings are exactly the seven names, each bound as the sandbox literal binds it |
| `Executor.Sandbox` | index.js:140-157 | a script sees every host global except `global` and `globalThis`, plus `module`, `require`, `serverless`, `options`, `__filename`, `__dirname` and `exports`, which override globals of the same name; `require` and `module` belong to the script file, `__dirname` is the resolved directory and `exports` is a fresh object |
| `PackageBuilder.Split` | examples/babel-then-package-to-zip/build/PackageBuilder.js:61 | splitting on a separator class gives one more part than there are separators, and no part contains a separator |
| `PackageBuilder.JoinSplit` | examples/babel-then-package-to-zip/build/PackageBuilder.js:61 | joining the parts with `/` gives the path back with every `\` turned into `/` |
| `PackageBuilder.IsRootDependency` | examples/babel-then-package-to-zip/build/PackageBuilder.js:60-63 | a path is a root dependency iff it contains at most one `/` or `\` |
| `PackageBuilder.SwapKeepsRootDependency` | examples/babel-then-package-to-zip/build/PackageBuilder.js:61 | exchanging `/` and `\` never changes the answer |
| `PackageBuilder.TopLevelIsRootDependency` | examples/babel-then-package-to-zip/build/PackageBuilder.js:52-63 | `node_modules/<pkg>` is a root dependency |
| `PackageBuilder.NestedIsNotRootDependency` | examples/babel-then-package-to-zip/build/PackageBuilder.js:52-63 | `node_modules/<a>/node_modules/<b>` is not a root dependency |
| `PackageBuilder.Selected` | examples/babel-then-package-to-zip/build/PackageBuilder.js:45 | a folder is added iff its relative path is non-empty, not excluded and contains at most one separator |
| `PackageBuilder.Included` | examples/babel-then-package-to-zip/build/PackageBuilder.js:42-49 | the added folders are no more than the printed ones, each printed and selected, and all of them when every folder is selected |
| `PackageBuilder.IncludedIsSubsequence` | examples/babel-then-package-to-zip/build/PackageBuilder.js:42-49 | the folders added keep the order `npm ls` printed them in |
| `PackageBuilder.IncludedMultiplicity` | examples/babel-then-package-to-zip/build/PackageBuilder.js:42-49 | a selected folder is added once per line it appears on, and any other folder is never added |
| `PackageBuilder.DependencyFolders` | examples/babel-then-package-to-zip/build/PackageBuilder.js:40 | the lines of the `npm ls` output: one more than there are newlines, none holding a newline, and joined with newlines they give the output back |
| `PackageBuilder.JoinSplitLines` | examples/babel-then-package-to-zip/build/PackageBuilder.js:40 | splitting on newlines and joining with a newline is the identity |
| `PackageBuilder.AddFolders` | examples/babel-then-package-to-zip/build/PackageBuilder.js:42-49 | the `forEach` loop adds exactly the selected folders, in order, and logs `Add dependencies: <relative path>` for each |
| `PackageBuilder.AddDependenciesExclude` | examples/babel-then-package-to-zip/build/PackageBuilder.js:39-50 | the loop adds exactly the selected folders, in order, and logs `Add dependencies: <relative path>` for each |
| `Js.NatToString` | index.js:54 | the decimal numeral of a natural number is non-empty, all digits, and has no leading zero |
| `Js.DigitsValueOfNatToString` | index.js:54 | reading the numeral back gives the number |
| `Js.IndexEntries` | index.js:54 | spreading an array gives one key per index, `"0"` to `"n-1"`, bound to that element |
| `Js.IsNullish` | index.js:88 | `v != null` is false exactly for `null` and `undefined`, and both are falsy |
| `Js.Truthy` | index.js:87-89 | a value is falsy exactly when it is `undefined`, `null`, `false`, `0`, `NaN` or `""` |
| `Js.Or` | index.js:51-52 | `a \|\| b` is `a` when `a` is truthy and `b` otherwise, and it is truthy iff either operand is |
| `Js.Prop` | index.js:95-98 | a property read on a value other than `null` or `undefined` gives the object's own property, and `undefined` when there is none or the value is not an object |
| `Js.ToStringOfStrings` | index.js:81 | an array of strings is written as the strings joined by `,`, so a command `["a", "b"]` has usage `Run a,b` |
| `Js.IntToString` | index.js:81 | a non-negative integer is written as its decimal numeral, a negative one as `-` and the numeral of its magnitude |
| `Js.ToString` | index.js:114-124 | a template literal writes a string as itself and a non-negative number as the digits of its value; an empty array, or a one-element array holding `null` or `undefined`, as `""`; a one-string array as that string |
| `Js.OwnEntries` | index.js:54 | spread and `Object.keys` see an object's own properties, an array's or a string's indices bound to the elements or characters, and nothing for other values |

## Left out

- Spawning processes, evaluating scripts, the file system and the console
  are left out. They are the `Runtime` parameter and the event trace. What a
  command or script does depends only on the world and the entry.
- `Module`, `module.paths`, `require.resolve` and `fs.realpathSync` are left
  out. `Sandbox` takes the script's resolved directory as a parameter and
  represents the module objects symbolically.
- `exec` and `eval` are total functions. A command that never exits, or a
  script whose promise never settles, stalls the rest of the chain in the
  plugin. The model has no such run: every entry finishes.
- Registry.Invoke: it states only bounds on the run. The full behaviour is
  `RunEntries`, and the lemmas about it apply.
- An action holds its spec by reference: `runScript` captures the
  configuration's array, and the hook merge at index.js:54 is a shallow
  spread. A script that edits that array in place (a `push`, say) changes
  what a later run of the action does. The model copies the spec into the
  plugin when it is constructed, and the world `W` cannot reach it, so such
  in-place edits are not modelled.
- Bluebird's promise machinery is left out. A settled script result stands
  for the awaited promise.
- JavaScript numbers are integers plus `NaN`. Fractions and infinities do
  not affect any decision the plugin makes.
- Js.NatToString: it writes every integer in plain decimal. JavaScript writes
  integers of 10^21 and above in exponent form (`1e+21`), and a double holds
  integers above 2^53 only approximately. So for a numeric spec that large
  the model's `Run ${spec}` usage text and its `Running command:` and
  `Failed to run command:` lines differ from the plugin's.
- Prototype properties and getters are left out. A property read sees only
  own properties. Arrays and strings have no named properties, including
  `length`.
- The insertion order of object keys is left out. Keys form a set, because
  every registration is keyed by name and no result depends on order.
- Strings are sequences of characters, so UTF-16 code units are not
  modelled. Only the POSIX flavour of `path.extname` is modelled.
- PackageBuilder.AddDependenciesExclude: it returns the folders handed to
  `addFolder` rather than zipping them. `walkDirSync`, `addFolder` and
  `writeToFileSync` are left out because they are file-system I/O.
  `path.relative` is a parameter.
- The other files under `example/` and `examples/` are the packaging
  example's build scripts, and none is modelled. `exec.js` wraps `execSync`
  with `console.log`. `package.js` runs shell steps and calls
  `PackageBuilder`'s `addFolder`, `addDependenciesExclude` and
  `writeToFileSync`. Of these only `addDependenciesExclude` is modelled.
- The scripts under `test/scripts` are hook scripts the tests run, not part
  of the plugin. `test-with-color.js` only prints.
  `check-is-support-colors.js` also sets `serverless.supportColorLevel`.
  The model covers that effect only as a change in the world that `eval`
  returns.
