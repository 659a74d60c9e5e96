/**
 The script executor of `Scriptable` (index.js:100-167): the action a hook
 runs normalises its spec to a list, classifies each entry as a JavaScript
 file or a shell command, and runs the entries strictly in order, stopping at
 the first failure.

 Process spawning and script evaluation are not modelled; they are the
 `Runtime` parameter, acting on an abstract world `W` (file system, host
 state object) that the run threads from entry to entry. Where a command's
 output goes is recorded only in its `Spawn` event.
 */
module Executor {
  import opened Js
  import opened Errors
  import NodePath

  /** Where a child process writes an output stream: the parent's own
      stream, or `'ignore'`. */
  datatype Stream = Inherit | Ignore

  /** The instance fields an action reads when it runs. */
  datatype Settings = Settings(showCommands: bool, stdout: Stream, stderr: Stream)

  /** What running an entry makes observable, in order. */
  datatype Event =
    | Log(line: string)
    /** `execSync(command, {stdio: [stdin, stdout, stderr]})`; stdin is always inherited. */
    | Spawn(command: string, stdout: Stream, stderr: Stream)
    /** The file's source evaluated in a fresh sandbox context. */
    | Evaluate(file: string)

  /** How an evaluated script ends once its result has settled. */
  datatype Completion = Normal | Threw(value: JsValue)

  /** The facilities the executor calls but does not implement. */
  datatype Runtime<!W> = Runtime(
    /** `fs.existsSync(path)` */
    pathExists: (W, string) -> bool,
    /** `execSync(command)`: the world afterwards, and whether it exited with status 0 */
    exec: (W, string) -> (W, bool),
    /** Evaluating a script file and awaiting its result */
    eval: (W, string) -> (W, Completion))

  /** How an entry is dispatched. */
  datatype Target = JsFile(path: string) | Command(script: JsValue)

  datatype Outcome = Done | Failed(error: Error)

  /** The effect of running entries: the world afterwards, the events in
      order, how many entries were started, and how the run ended. */
  datatype Run<W> = Run(world: W, trace: seq<Event>, started: nat, outcome: Outcome)

  const CommandFailurePrefix: string := "Failed to run command: "

  /** The entries of a spec: an array as it is, anything else as a singleton. */
  function Entries(spec: JsValue): (r: seq<JsValue>)
    ensures spec.Arr? ==> r == spec.elems
    ensures !spec.Arr? ==> r == [spec]
  {
    if spec.Arr? then spec.elems else [spec]
  }

  /** `fs.existsSync(script) && path.extname(script) === '.js'`. A value that
      is not a string never exists as a path, and neither does a string
      holding a NUL character: `existsSync` answers false for a path Node's
      path validation rejects, without asking the file system. */
  function Classify<W(!new)>(rt: Runtime<W>, w: W, entry: JsValue): (t: Target)
    ensures t.JsFile? <==> entry.Str? && '\0' !in entry.s && rt.pathExists(w, entry.s) && NodePath.EndsWithJs(entry.s)
    ensures t.JsFile? ==> t.path == entry.s
    ensures t.Command? ==> t.script == entry
  {
    if entry.Str? && '\0' !in entry.s && rt.pathExists(w, entry.s) then
      NodePath.ExtnameIsJs(entry.s);
      if NodePath.Extname(entry.s) == ".js" then JsFile(entry.s) else Command(entry)
    else Command(entry)
  }

  /** The line logged before an entry runs when `showCommands` is on. */
  function Announcement(t: Target): (line: string)
    ensures t.JsFile? ==> line == "Running javascript file: " + t.path
    ensures t.Command? ==> line == "Running command: " + ToString(t.script)
    ensures t.Command? && t.script.Str? ==> line == "Running command: " + t.script.s
  {
    match t
    case JsFile(path) => "Running javascript file: " + path
    case Command(script) => "Running command: " + ToString(script)
  }

  function Announce(s: Settings, t: Target): seq<Event> {
    if s.showCommands then [Log(Announcement(t))] else []
  }

  /** Whether `execSync` gets as far as spawning a shell for `script`: it
      rejects a value that is not a string, an empty string and a string
      holding a NUL character before spawning anything. */
  predicate Spawnable(script: JsValue): (r: bool)
    ensures !script.Str? ==> !r
    ensures script == Str("") ==> !r
    ensures script.Str? && (exists i :: 0 <= i < |script.s| && script.s[i] == '\0') ==> !r
    ensures script.Str? && script.s != "" && (forall i :: 0 <= i < |script.s| ==> script.s[i] != '\0') ==> r
  {
    script.Str? && |script.s| > 0 && '\0' !in script.s
  }

  /** `runCommand(script)` (index.js:114-124). Every failure, whether
      `execSync` rejects the script or the command exits with a non-zero
      status, becomes the same terse `SimpleError`. */
  function RunCommand<W(!new)>(rt: Runtime<W>, s: Settings, script: JsValue, w: W): (r: Run<W>)
    ensures r.started == 1
    ensures r.outcome.Failed? <==> !Spawnable(script) || !rt.exec(w, script.s).1
    ensures r.outcome.Failed? ==> r.outcome.error == SimpleError(CommandFailurePrefix + ToString(script), Null)
    ensures s.showCommands <==> |r.trace| > 0 && r.trace[0].Log?
    ensures Spawnable(script) ==> |r.trace| > 0 && r.trace[|r.trace| - 1] == Spawn(script.s, s.stdout, s.stderr)
    ensures !Spawnable(script) ==> r.world == w
    ensures Spawnable(script) ==> r.world == rt.exec(w, script.s).0
    ensures r.trace == Announce(s, Command(script)) + (if Spawnable(script) then [Spawn(script.s, s.stdout, s.stderr)] else [])
  {
    var announce := Announce(s, Command(script));
    var failure := Failed(NewSimpleError(CommandFailurePrefix + ToString(script)));
    if Spawnable(script) then
      var (w', ok) := rt.exec(w, script.s);
      Run(w', announce + [Spawn(script.s, s.stdout, s.stderr)], 1, if ok then Done else failure)
    else
      Run(w, announce, 1, failure)
  }

  /** An empty command fails without spawning anything, whatever the
      runtime would do with it. */
  lemma EmptyCommandFails<W(!new)>(rt: Runtime<W>, s: Settings, w: W)
    ensures var r := RunEntry(rt, s, Str(""), w);
      && r.outcome == Failed(SimpleError(CommandFailurePrefix, Null))
      && r.world == w
      && r.trace == Announce(s, Command(Str("")))
  {
    assert !NodePath.EndsWithJs("");
    assert CommandFailurePrefix + "" == CommandFailurePrefix;
  }

  /** An entry holding a NUL character neither exists as a file nor spawns:
      it fails as a command, whatever the runtime would say about it. */
  lemma NulEntryFails<W(!new)>(rt: Runtime<W>, s: Settings, p: string, w: W)
    requires '\0' in p
    ensures var r := RunEntry(rt, s, Str(p), w);
      && r.outcome == Failed(SimpleError(CommandFailurePrefix + p, Null))
      && r.world == w
      && r.trace == Announce(s, Command(Str(p)))
  {
  }

  /** A file named `.js` has no extension, so it runs as a command even when
      it exists. */
  lemma HiddenJsFileRunsAsCommand<W(!new)>(rt: Runtime<W>, w: W)
    ensures Classify(rt, w, Str(".js")) == Command(Str(".js"))
  {
    NodePath.ExtnameOfHiddenFile();
    NodePath.ExtnameIsJs(".js");
  }

  /** `runJavascriptFile(scriptFile)` (index.js:126-167), awaited: whatever
      the script throws or its promise rejects with is propagated unchanged. */
  function RunJavascriptFile<W(!new)>(rt: Runtime<W>, s: Settings, path: string, w: W): (r: Run<W>)
    ensures r.started == 1
    ensures r.outcome.Failed? <==> rt.eval(w, path).1.Threw?
    ensures r.outcome.Failed? ==> r.outcome.error == Thrown(rt.eval(w, path).1.value)
    ensures r.world == rt.eval(w, path).0
    ensures s.showCommands <==> |r.trace| > 0 && r.trace[0].Log?
    ensures |r.trace| > 0 && r.trace[|r.trace| - 1] == Evaluate(path)
    ensures r.trace == Announce(s, JsFile(path)) + [Evaluate(path)]
  {
    var (w', completion) := rt.eval(w, path);
    Run(w', Announce(s, JsFile(path)) + [Evaluate(path)], 1,
        if completion.Normal? then Done else Failed(Thrown(completion.value)))
  }

  /** The body of the `Bluebird.each` iterator in `runScript`. */
  function RunEntry<W(!new)>(rt: Runtime<W>, s: Settings, entry: JsValue, w: W): (r: Run<W>)
    ensures r.started == 1
    ensures s.showCommands ==> |r.trace| > 0 && r.trace[0] == Log(Announcement(Classify(rt, w, entry)))
    ensures !s.showCommands ==> |r.trace| <= 1 && (|r.trace| == 1 ==> !r.trace[0].Log?)
    ensures Classify(rt, w, entry).JsFile? ==>
      && r.world == rt.eval(w, entry.s).0
      && (r.outcome.Failed? <==> rt.eval(w, entry.s).1.Threw?)
      && (r.outcome.Failed? ==> r.outcome.error == Thrown(rt.eval(w, entry.s).1.value))
    ensures r.trace == Announce(s, Classify(rt, w, entry)) +
      if Classify(rt, w, entry).JsFile? then [Evaluate(entry.s)]
      else if Spawnable(entry) then [Spawn(entry.s, s.stdout, s.stderr)]
      else []
    ensures Classify(rt, w, entry).Command? ==>
      && r.world == (if Spawnable(entry) then rt.exec(w, entry.s).0 else w)
      && (r.outcome.Failed? <==> !Spawnable(entry) || !rt.exec(w, entry.s).1)
      && (r.outcome.Failed? ==> r.outcome.error == NewSimpleError(CommandFailurePrefix + ToString(entry)))
  {
    if Classify(rt, w, entry).JsFile? then RunJavascriptFile(rt, s, entry.s, w)
    else RunCommand(rt, s, entry, w)
  }

  /** Running `b` after `a` has finished. */
  function Then<W(!new)>(a: Run<W>, b: Run<W>): Run<W> {
    Run(b.world, a.trace + b.trace, a.started + b.started, b.outcome)
  }

  /** Every step starts exactly one entry. */
  ghost predicate StartsOne<W(!new)>(step: (JsValue, W) -> Run<W>) {
    forall e, v :: step(e, v).started == 1
  }

  /** `Bluebird.each(entries, step)` with an iterator that returns the
      entry's promise: each entry starts only after the previous one
      succeeded, and the first failure ends the run. */
  function Sequence<W(!new)>(step: (JsValue, W) -> Run<W>, entries: seq<JsValue>, w: W): (r: Run<W>)
    requires StartsOne(step)
    ensures r.started <= |entries|
    ensures r.outcome.Done? ==> r.started == |entries|
    ensures r.outcome.Failed? ==> r.started > 0
    decreases |entries|
  {
    if |entries| == 0 then Run(w, [], 0, Done)
    else
      var first := step(entries[0], w);
      if first.outcome.Failed? then first
      else Then(first, Sequence(step, entries[1..], first.world))
  }

  /** One step of `Sequence`, as an equation. */
  lemma SequenceCons<W(!new)>(step: (JsValue, W) -> Run<W>, entries: seq<JsValue>, w: W)
    requires StartsOne(step)
    requires |entries| > 0
    ensures Sequence(step, entries, w) ==
      var first := step(entries[0], w);
      if first.outcome.Failed? then first else Then(first, Sequence(step, entries[1..], first.world))
  {
  }

  /** Running `a + b` is running `a`, then `b` from where `a` left the world,
      unless `a` failed. */
  lemma {:induction false} SequenceAppend<W(!new)>(step: (JsValue, W) -> Run<W>, a: seq<JsValue>, b: seq<JsValue>, w: W)
    requires StartsOne(step)
    ensures Sequence(step, a + b, w) ==
      var ra := Sequence(step, a, w);
      if ra.outcome.Failed? then ra else Then(ra, Sequence(step, b, ra.world))
    decreases |a|
  {
    if |a| == 0 {
      assert a + b == b;
      var rb := Sequence(step, b, w);
      assert [] + rb.trace == rb.trace;
    } else {
      assert (a + b)[0] == a[0];
      assert (a + b)[1..] == a[1..] + b;
      var first := step(a[0], w);
      if first.outcome.Done? {
        SequenceAppend(step, a[1..], b, first.world);
        var rest := Sequence(step, a[1..], first.world);
        if rest.outcome.Done? {
          ThenAssociative(first, rest, Sequence(step, b, rest.world));
        }
      }
    }
  }

  /** Once a prefix of the entries fails, no later entry is started and the
      failure is the run's failure. */
  lemma FailureStopsLaterEntries<W(!new)>(step: (JsValue, W) -> Run<W>, a: seq<JsValue>, b: seq<JsValue>, w: W)
    requires StartsOne(step)
    requires Sequence(step, a, w).outcome.Failed?
    ensures Sequence(step, a + b, w) == Sequence(step, a, w)
  {
    SequenceAppend(step, a, b, w);
  }

  lemma ThenAssociative<W(!new)>(a: Run<W>, b: Run<W>, c: Run<W>)
    ensures Then(a, Then(b, c)) == Then(Then(a, b), c)
  {
    assert a.trace + (b.trace + c.trace) == (a.trace + b.trace) + c.trace;
  }

  lemma PrefixCons<T>(xs: seq<T>, n: nat)
    requires 0 < n <= |xs|
    ensures xs[..n][0] == xs[0] && xs[..n][1..] == xs[1..][..n - 1]
  {
  }

  /** A run that fails stops at its last started entry: every entry before it
      succeeded, that entry failed with the run's error, and none after it
      was started. */
  lemma {:induction false} FirstFailureEndsRun<W(!new)>(step: (JsValue, W) -> Run<W>, entries: seq<JsValue>, w: W)
    requires StartsOne(step)
    requires Sequence(step, entries, w).outcome.Failed?
    ensures
      var r := Sequence(step, entries, w);
      var k := r.started - 1;
      var before := Sequence(step, entries[..k], w);
      && before.outcome.Done?
      && r == Then(before, step(entries[k], before.world))
      && r == Sequence(step, entries[..k + 1], w)
    decreases |entries|
  {
    var r := Sequence(step, entries, w);
    SequenceCons(step, entries, w);
    var first := step(entries[0], w);
    if first.outcome.Failed? {
      assert r == first && r.started == 1;
      assert entries[..0] == [];
      assert [] + first.trace == first.trace;
      SequenceCons(step, entries[..1], w);
      PrefixCons(entries, 1);
    } else {
      var tail := entries[1..];
      var rest := Sequence(step, tail, first.world);
      assert r == Then(first, rest);
      FirstFailureEndsRun(step, tail, first.world);
      var j := rest.started - 1;
      var k := j + 1;
      assert r.started - 1 == k;
      var before' := Sequence(step, tail[..j], first.world);
      var last := step(tail[j], before'.world);
      PrefixCons(entries, k);
      SequenceCons(step, entries[..k], w);
      var before := Sequence(step, entries[..k], w);
      assert before == Then(first, before');
      assert entries[k] == tail[j];
      ThenAssociative(first, before', last);
      PrefixCons(entries, k + 1);
      SequenceCons(step, entries[..k + 1], w);
    }
  }

  /** A run that succeeds started every entry, each after its predecessors
      had succeeded, and each succeeded. */
  lemma {:induction false} SuccessRanEveryEntry<W(!new)>(step: (JsValue, W) -> Run<W>, entries: seq<JsValue>, w: W, k: nat)
    requires StartsOne(step)
    requires Sequence(step, entries, w).outcome.Done?
    requires k < |entries|
    ensures Sequence(step, entries[..k], w).outcome.Done?
    ensures step(entries[k], Sequence(step, entries[..k], w).world).outcome.Done?
  {
    SequenceCons(step, entries, w);
    var first := step(entries[0], w);
    if k == 0 {
      assert entries[..0] == [];
    } else {
      var tail := entries[1..];
      SuccessRanEveryEntry(step, tail, first.world, k - 1);
      PrefixCons(entries, k);
      SequenceCons(step, entries[..k], w);
      assert entries[k] == tail[k - 1];
    }
  }

  /** The step of an action: `runScript`'s iterator with the instance's
      settings. */
  function StepOf<W(!new)>(rt: Runtime<W>, s: Settings): (step: (JsValue, W) -> Run<W>)
    ensures StartsOne(step)
    ensures forall e, v :: step(e, v) == RunEntry(rt, s, e, v)
  {
    (e, v) => RunEntry(rt, s, e, v)
  }

  /** What calling the action `runScript(spec)` does to the world. */
  function RunEntries<W(!new)>(rt: Runtime<W>, s: Settings, entries: seq<JsValue>, w: W): (r: Run<W>)
    ensures r.started <= |entries|
    ensures r.outcome.Done? ==> r.started == |entries|
  {
    Sequence(StepOf(rt, s), entries, w)
  }

  /** Two commands that both exit with status 0 run one after the other: each
      is announced, then spawned, the second in the world the first left. */
  lemma TwoCommandsRunInOrder<W(!new)>(rt: Runtime<W>, out: Stream, err: Stream, a: string, b: string, w: W)
    requires Spawnable(Str(a)) && Spawnable(Str(b))
    requires !Classify(rt, w, Str(a)).JsFile? && rt.exec(w, a).1
    requires !Classify(rt, rt.exec(w, a).0, Str(b)).JsFile? && rt.exec(rt.exec(w, a).0, b).1
    ensures
      var r := RunEntries(rt, Settings(true, out, err), [Str(a), Str(b)], w);
      && r.outcome == Done
      && r.world == rt.exec(rt.exec(w, a).0, b).0
      && r.trace == [Log("Running command: " + a), Spawn(a, out, err), Log("Running command: " + b), Spawn(b, out, err)]
  {
    var s := Settings(true, out, err);
    var entries := [Str(a), Str(b)];
    assert entries[1..] == [Str(b)];
    assert entries[1..][1..] == [];
    var w1 := rt.exec(w, a).0;
    var first := RunEntry(rt, s, Str(a), w);
    assert Classify(rt, w, Str(a)) == Command(Str(a));
    assert first == Run(w1, [Log("Running command: " + a), Spawn(a, out, err)], 1, Done);
    var step := RunEntry(rt, s, Str(b), w1);
    assert Classify(rt, w1, Str(b)) == Command(Str(b));
    assert step == Run(rt.exec(w1, b).0, [Log("Running command: " + b), Spawn(b, out, err)], 1, Done);
    var second := RunEntries(rt, s, [Str(b)], w1);
    assert [Str(b)][0] == Str(b) && [Str(b)][1..] == [];
    assert RunEntries(rt, s, [], step.world) == Run(step.world, [], 0, Done);
    assert second == Then(step, Run(step.world, [], 0, Done));
    assert step.trace + [] == step.trace;
  }

  /** The run's events with the announcement lines left out. */
  function WithoutLogs(trace: seq<Event>): (r: seq<Event>)
    ensures forall i :: 0 <= i < |r| ==> !r[i].Log?
    ensures |r| <= |trace|
  {
    if |trace| == 0 then []
    else (if trace[0].Log? then [] else [trace[0]]) + WithoutLogs(trace[1..])
  }

  lemma {:induction false} WithoutLogsAppend(a: seq<Event>, b: seq<Event>)
    ensures WithoutLogs(a + b) == WithoutLogs(a) + WithoutLogs(b)
    decreases |a|
  {
    if |a| == 0 {
      assert a + b == b;
    } else {
      assert (a + b)[0] == a[0];
      assert (a + b)[1..] == a[1..] + b;
      WithoutLogsAppend(a[1..], b);
    }
  }

  /** For one entry, turning `showCommands` off drops the announcement and
      changes nothing else. */
  lemma QuietStepOmitsOnlyAnnouncement<W(!new)>(rt: Runtime<W>, out: Stream, err: Stream, entry: JsValue, w: W)
    ensures
      var loud := RunEntry(rt, Settings(true, out, err), entry, w);
      RunEntry(rt, Settings(false, out, err), entry, w) == Run(loud.world, WithoutLogs(loud.trace), loud.started, loud.outcome)
  {
    var t := Classify(rt, w, entry);
    var tail := if t.JsFile? then [Evaluate(entry.s)]
      else if Spawnable(entry) then [Spawn(entry.s, out, err)] else [];
    assert RunEntry(rt, Settings(true, out, err), entry, w).trace == [Log(Announcement(t))] + tail;
    assert RunEntry(rt, Settings(false, out, err), entry, w).trace == tail;
    DropAnnouncement(Log(Announcement(t)), tail);
  }

  /** Dropping the logs of an announcement followed by at most one event that
      is not a log leaves that event. */
  lemma DropAnnouncement(announcement: Event, tail: seq<Event>)
    requires announcement.Log?
    requires |tail| <= 1 && (|tail| == 1 ==> !tail[0].Log?)
    ensures WithoutLogs([announcement] + tail) == tail
  {
    assert ([announcement] + tail)[1..] == tail;
    NoLogsUnchanged(tail);
  }

  /** Turning `showCommands` off removes the announcement lines and changes
      nothing else: the same entries run, in the same worlds, with the same
      outcome. */
  lemma {:induction false} QuietRunOmitsOnlyAnnouncements<W(!new)>(rt: Runtime<W>, out: Stream, err: Stream, entries: seq<JsValue>, w: W)
    ensures
      var loud := RunEntries(rt, Settings(true, out, err), entries, w);
      RunEntries(rt, Settings(false, out, err), entries, w) == Run(loud.world, WithoutLogs(loud.trace), loud.started, loud.outcome)
    decreases |entries|
  {
    var loudStep := StepOf(rt, Settings(true, out, err));
    var quietStep := StepOf(rt, Settings(false, out, err));
    if |entries| > 0 {
      SequenceCons(loudStep, entries, w);
      SequenceCons(quietStep, entries, w);
      QuietStepOmitsOnlyAnnouncement(rt, out, err, entries[0], w);
      var first := loudStep(entries[0], w);
      if first.outcome.Done? {
        QuietRunOmitsOnlyAnnouncements(rt, out, err, entries[1..], first.world);
        WithoutLogsAppend(first.trace, Sequence(loudStep, entries[1..], first.world).trace);
      }
    }
  }

  lemma {:induction false} NoLogsUnchanged(trace: seq<Event>)
    requires forall i :: 0 <= i < |trace| ==> !trace[i].Log?
    ensures WithoutLogs(trace) == trace
    decreases |trace|
  {
    if |trace| > 0 {
      NoLogsUnchanged(trace[1..]);
    }
  }

  /** The `Bluebird.each` loop written as a loop: each entry is awaited
      before the next starts, and the loop leaves at the first failure. */
  method Each<W(!new)>(step: (JsValue, W) -> Run<W>, entries: seq<JsValue>, w: W) returns (r: Run<W>)
    requires StartsOne(step)
    ensures r == Sequence(step, entries, w)
  {
    r := Run(w, [], 0, Done);
    var i := 0;
    assert [] + Sequence(step, entries, w).trace == Sequence(step, entries, w).trace;
    while i < |entries| && r.outcome.Done?
      invariant 0 <= i <= |entries|
      invariant r.outcome.Done? ==> Sequence(step, entries, w) == Then(r, Sequence(step, entries[i..], r.world))
      invariant r.outcome.Failed? ==> Sequence(step, entries, w) == r
      decreases |entries| - i
    {
      var next := step(entries[i], r.world);
      assert entries[i..][0] == entries[i] && entries[i..][1..] == entries[i + 1..];
      ThenAssociative(r, next, Sequence(step, entries[i + 1..], next.world));
      r := Then(r, next);
      i := i + 1;
    }
    if r.outcome.Done? {
      assert r.trace + [] == r.trace;
    }
  }

  /* ---------------- the script sandbox ---------------- */

  /** What a name in a script's sandbox is bound to. */
  datatype Binding =
    | GlobalValue(name: string)
    | ModuleHandle(file: string)
    | ScopedRequire(file: string)
    | HostServerless
    | HostOptions
    | FileName(path: string)
    | DirName(dir: string)
    | FreshExports

  /** The names `runJavascriptFile` binds on top of the host's globals. */
  const InjectedNames: set<string> :=
    {"module", "require", "serverless", "options", "__filename", "__dirname", "exports"}

  /** The bindings `runJavascriptFile` lays over the host's globals, for a
      script at `scriptFile` whose symlink-resolved directory is `realDir`. */
  function Injected(scriptFile: string, realDir: string): (m: map<string, Binding>)
    ensures m.Keys == InjectedNames
    ensures m["serverless"] == HostServerless && m["options"] == HostOptions
    ensures m["__filename"] == FileName(scriptFile) && m["__dirname"] == DirName(realDir)
    ensures m["require"] == ScopedRequire(scriptFile) && m["module"] == ModuleHandle(scriptFile)
    ensures m["exports"] == FreshExports
  {
    map[
      "module" := ModuleHandle(scriptFile),
      "require" := ScopedRequire(scriptFile),
      "serverless" := HostServerless,
      "options" := HostOptions,
      "__filename" := FileName(scriptFile),
      "__dirname" := DirName(realDir),
      "exports" := FreshExports]
  }

  /** The sandbox of `runJavascriptFile` (index.js:140-157): every global of
      the host except the self-references `global` and `globalThis`, with the
      injected bindings laid over them. */
  function Sandbox(globals: set<string>, scriptFile: string, realDir: string): (r: map<string, Binding>)
    ensures r.Keys == (globals - {"global", "globalThis"}) + InjectedNames
    ensures "global" !in r && "globalThis" !in r
    ensures forall k :: k in r && k !in InjectedNames ==> r[k] == GlobalValue(k)
    ensures r["serverless"] == HostServerless && r["options"] == HostOptions
    ensures r["__filename"] == FileName(scriptFile) && r["__dirname"] == DirName(realDir)
    ensures r["require"] == ScopedRequire(scriptFile) && r["module"] == ModuleHandle(scriptFile)
    ensures r["exports"] == FreshExports
  {
    var inherited := map k | k in globals && k != "global" && k != "globalThis" :: GlobalValue(k);
    assert "global" !in InjectedNames && "globalThis" !in InjectedNames;
    inherited + Injected(scriptFile, realDir)
  }
}
