/**
  `importOnDemand(pkg)`: parse the specifier, try the native import of the
  version-free import path, and only on a miss gate on npx's version, install
  the package ephemerally with npx, recover the install directory and load
  the package relative to it.  Every fault of the fallback becomes one error
  naming the import path, the fault's own message and a remediation command.

  A run returns its outcome and the trace of effects it performed.
*/
module Orchestrator {
  import opened Options
  import opened Text
  import opened Specifier
  import opened PackageManagers
  import opened Host
  import opened Npx

  datatype Outcome<M> =
    | Loaded(value: M)                      // the promise resolves to the module
    | Failed(cause: Fault, message: string) // it rejects with the wrapped error
    | Unparsable(input: string)             // `parse` threw, before anything else ran

  datatype Run<M> = Run(outcome: Outcome<M>, trace: seq<Call>)

  /** The sentence that introduces the remediation in every failure message. */
  function InstallLocallyHint(name: string): string {
    "You should install " + name + " locally:"
  }

  /**
    The message of the error `importOnDemand` throws when the fallback fails:
    it names the import path, quotes the root cause verbatim and ends with
    the detected package manager's install command for `name@version`.
  */
  function FailureMessage(importPath: string, name: string, version: string, env: Env, root: string): (msg: string)
    ensures StartsWith(msg, "IOD (Import On-Demand) failed for " + importPath)
    ensures Contains(msg, root)
    ensures ContainsInOrder(msg, [importPath, root, InstallLocallyHint(name), InstallInstructions(name, version, env)])
  {
    // head + importPath + " with message:\n    " + root + "\n\n"
    //   + "You should install " + name + " locally: \n    " + instructions + "\n\n"
    var head := "IOD (Import On-Demand) failed for ";
    var instructions := InstallInstructions(name, version, env);
    var hint := InstallLocallyHint(name);
    var tail3 := " \n    " + instructions + "\n\n";
    var tail2 := "\n\n" + hint + tail3;
    var tail1 := " with message:\n    " + root + tail2;
    ContainsInOrderCons(" \n    ", instructions, "\n\n", []);
    assert [instructions] + [] == [instructions];
    ContainsInOrderCons("\n\n", hint, tail3, [instructions]);
    assert [hint] + [instructions] == [hint, instructions];
    ContainsInOrderCons(" with message:\n    ", root, tail2, [hint, instructions]);
    assert [root] + [hint, instructions] == [root, hint, instructions];
    ContainsInOrderCons(head, importPath, tail1, [root, hint, instructions]);
    assert [importPath] + [root, hint, instructions] == [importPath, root, hint, instructions];
    ContainsInfix(" with message:\n    ", root, tail2);
    ContainsPrepend(head + importPath, tail1, root);
    head + importPath + tail1
  }

  /**
    The fallback `try` block (`checkNpxVersion`, `installAndReturnDir`, the
    relative load): the version probe always runs first; the install runs,
    once, exactly when the gate passes; the relative load runs, from a
    directory whose name ends in `node_modules`, exactly when the install
    produced one; and the module returned is the one that load produced.
  */
  function Fallback<M>(p: PackageSpec, w: World<M>): (r: Step<M>)
    ensures 1 <= |r.calls| <= 3
    ensures r.calls[0] == Exec(VersionCommand)
    ensures |r.calls| > 1 <==> NpxUsable(w.exec, w.readVersion)
    ensures |r.calls| > 1 ==> r.calls[1] == Exec(InstallCommand(p.name, p.version))
    ensures |r.calls| == 3 <==> NpxUsable(w.exec, w.readVersion) && InstallAndReturnDir(p.name, p.version, w.exec).result.Done?
    ensures |r.calls| == 3 ==>
              && r.calls[2].RequireFrom?
              && r.calls[2].importPath == ImportPath(p)
              && EndsWith(r.calls[2].dir, "node_modules")
              && InstallAndReturnDir(p.name, p.version, w.exec).result == Done(r.calls[2].dir)
    ensures r.result.Done? ==> |r.calls| == 3 && w.requireFrom(r.calls[2].dir, ImportPath(p)) == LoadedModule(r.result.value)
    // each failing step's fault is the fallback's fault, unchanged
    ensures !NpxUsable(w.exec, w.readVersion) ==> r.result == Fail(CheckNpxVersion(w.exec, w.readVersion).result.fault)
    ensures NpxUsable(w.exec, w.readVersion) && InstallAndReturnDir(p.name, p.version, w.exec).result.Fail? ==>
              r.result == Fail(InstallAndReturnDir(p.name, p.version, w.exec).result.fault)
    ensures |r.calls| == 3 ==> (r.result.Done? <==> w.requireFrom(r.calls[2].dir, ImportPath(p)).LoadedModule?)
    ensures |r.calls| == 3 && w.requireFrom(r.calls[2].dir, ImportPath(p)).LoadThrew? ==>
              r.result == Fail(Rejected(w.requireFrom(r.calls[2].dir, ImportPath(p)).message))
  {
    var gate := CheckNpxVersion(w.exec, w.readVersion);
    match gate.result
    case Fail(f) => Step(Fail(f), gate.calls)
    case Done(_) =>
      var install := InstallAndReturnDir(p.name, p.version, w.exec);
      var calls := gate.calls + install.calls;
      match install.result
      case Fail(f) => Step(Fail(f), calls)
      case Done(dir) =>
        var load := [RequireFrom(dir, ImportPath(p))];
        match w.requireFrom(dir, ImportPath(p))
        case LoadedModule(m) => Step(Done(m), calls + load)
        case LoadThrew(msg) => Step(Fail(Rejected(msg)), calls + load)
  }

  /** The native import misses for the specifier's import path. */
  predicate LocalMiss<M>(p: PackageSpec, w: World<M>) {
    w.nativeImport(ImportPath(p)).None?
  }

  /**
    `importOnDemand` once the specifier is parsed.  The native import of the
    import path is always the first effect; a hit returns that module and
    does nothing else; a miss runs the fallback, and the run can only fail
    after a miss, with the wrapped message.
  */
  function ImportParsed<M>(p: PackageSpec, env: Env, w: World<M>): (r: Run<M>)
    ensures 1 <= |r.trace| <= 4
    ensures r.trace[0] == NativeImport(ImportPath(p))
    ensures !r.outcome.Unparsable?
    ensures !LocalMiss(p, w) ==>
              r.outcome == Loaded(w.nativeImport(ImportPath(p)).value) && r.trace == [NativeImport(ImportPath(p))]
    ensures LocalMiss(p, w) ==> |r.trace| >= 2 && r.trace[1] == Exec(VersionCommand)
    ensures LocalMiss(p, w) ==> r.trace == [NativeImport(ImportPath(p))] + Fallback(p, w).calls
    ensures |r.trace| > 2 <==> LocalMiss(p, w) && NpxUsable(w.exec, w.readVersion)
    ensures LocalMiss(p, w) ==> (r.outcome.Loaded? <==> Fallback(p, w).result.Done?)
    ensures LocalMiss(p, w) && Fallback(p, w).result.Fail? ==> r.outcome.cause == Fallback(p, w).result.fault
    ensures r.outcome.Failed? ==>
              && LocalMiss(p, w)
              && r.outcome.message == FailureMessage(ImportPath(p), p.name, p.version, env, r.outcome.cause.Message())
    ensures r.outcome.Loaded? && LocalMiss(p, w) ==>
              && |r.trace| == 4
              && r.trace[3].RequireFrom?
              && EndsWith(r.trace[3].dir, "node_modules")
              && w.requireFrom(r.trace[3].dir, ImportPath(p)) == LoadedModule(r.outcome.value)
  {
    var path := ImportPath(p);
    match w.nativeImport(path)
    case Some(m) => Run(Loaded(m), [NativeImport(path)])
    case None =>
      var fallback := Fallback(p, w);
      var outcome :=
        match fallback.result
        case Done(m) => Loaded(m)
        case Fail(f) => Failed(f, FailureMessage(path, p.name, p.version, env, f.Message()));
      Run(outcome, [NativeImport(path)] + fallback.calls)
  }

  /**
    `importOnDemand(pkg)`: an unparsable specifier fails with the parser's
    own error before any effect; otherwise the first effect is the native
    import of the specifier's version-free import path.
  */
  function ImportOnDemand<M>(pkg: string, env: Env, w: World<M>): (r: Run<M>)
    ensures r.outcome.Unparsable? <==> Parse(pkg).None?
    ensures r.outcome.Unparsable? ==> r.outcome.input == pkg && r.trace == []
    ensures Parse(pkg).Some? ==> |r.trace| >= 1 && r.trace[0] == NativeImport(ImportPath(Parse(pkg).value))
    ensures Parse(pkg).Some? ==> r == ImportParsed(Parse(pkg).value, env, w)
  {
    match Parse(pkg)
    case None => Run(Unparsable(pkg), [])
    case Some(p) => ImportParsed(p, env, w)
  }

  // ---------------------------------------------------------------------------
  // Properties of whole runs

  /** The number of install commands (process runs other than the version probe) in a trace. */
  function InstallCount(trace: seq<Call>): nat
    decreases |trace|
  {
    if |trace| == 0 then 0
    else (if trace[0].Exec? && trace[0].command != VersionCommand then 1 else 0) + InstallCount(trace[1..])
  }

  /**
    Exactly one install, or none: a run issues exactly one install command when the
    native import missed and the gate passed, and none otherwise (in
    particular, none after a failed gate).
  */
  lemma InstallIssuedExactlyWhenGatePasses<M>(p: PackageSpec, env: Env, w: World<M>)
    ensures InstallCount(ImportParsed(p, env, w).trace) == if LocalMiss(p, w) && NpxUsable(w.exec, w.readVersion) then 1 else 0
  {
    var t := ImportParsed(p, env, w).trace;
    if LocalMiss(p, w) {
      FallbackInstallsOnce(p, w);
      assert t[1..] == Fallback(p, w).calls;
    } else {
      assert InstallCount(t[1..]) == 0;
    }
  }

  /** The fallback alone issues one install command when the gate passes and none otherwise. */
  lemma FallbackInstallsOnce<M>(p: PackageSpec, w: World<M>)
    ensures InstallCount(Fallback(p, w).calls) == if NpxUsable(w.exec, w.readVersion) then 1 else 0
  {
    var c := Fallback(p, w).calls;
    assert VersionCommand != InstallCommand(p.name, p.version) by {
      assert InstallCommand(p.name, p.version).shell;
    }
    assert InstallCount(c[|c|..]) == 0;
    if |c| == 3 {
      assert InstallCount(c[2..]) == 0 by { assert c[2..][1..] == c[3..]; }
    }
    if |c| >= 2 {
      assert InstallCount(c[1..]) == 1 by { assert c[1..][1..] == c[2..]; }
    }
  }

  /**
    A failed gate stops the run: the only process it issued is the version
    probe, and the error carries the gate's own message.
  */
  lemma FailedGateIssuesNoInstall<M>(p: PackageSpec, env: Env, w: World<M>)
    requires LocalMiss(p, w) && !NpxUsable(w.exec, w.readVersion)
    ensures ImportParsed(p, env, w).trace == [NativeImport(ImportPath(p)), Exec(VersionCommand)]
    ensures ImportParsed(p, env, w).outcome.Failed?
    ensures ImportParsed(p, env, w).outcome.cause == CheckNpxVersion(w.exec, w.readVersion).result.fault
  {
  }

  /**
    Whatever the install throws passes through: after a miss and a passed
    gate, a rejected install command makes the run fail with that rejection
    as its cause, quoted verbatim in the wrapped message, and nothing runs
    after it.
  */
  lemma InstallErrorPassesThrough<M>(p: PackageSpec, env: Env, w: World<M>)
    requires LocalMiss(p, w) && NpxUsable(w.exec, w.readVersion)
    requires w.exec(InstallCommand(p.name, p.version)).Threw?
    ensures ImportParsed(p, env, w).outcome.Failed?
    ensures ImportParsed(p, env, w).outcome.cause == Rejected(w.exec(InstallCommand(p.name, p.version)).message)
    ensures Contains(ImportParsed(p, env, w).outcome.message, w.exec(InstallCommand(p.name, p.version)).message)
    ensures |ImportParsed(p, env, w).trace| == 3
  {
    var r := ImportParsed(p, env, w);
    assert Fallback(p, w).result == Fail(Rejected(w.exec(InstallCommand(p.name, p.version)).message));
    assert r.outcome.cause.Message() == w.exec(InstallCommand(p.name, p.version)).message;
  }

  /**
    Every failure after a local miss is reported as one error that mentions,
    in this order, the import path, the root cause's message verbatim, the
    advice to install the package locally, and the remediation command.
  */
  lemma FailureNamesEverything<M>(p: PackageSpec, env: Env, w: World<M>)
    requires ImportParsed(p, env, w).outcome.Failed?
    ensures ContainsInOrder(ImportParsed(p, env, w).outcome.message,
              [ImportPath(p), ImportParsed(p, env, w).outcome.cause.Message(),
               InstallLocallyHint(p.name), InstallInstructions(p.name, p.version, env)])
    ensures EndsWith(InstallInstructions(p.name, p.version, env), " " + p.name + "@" + p.version)
  {
  }

  /**
    The only processes a run starts are the version probe and the one
    install command.
  */
  lemma OnlyProbeAndInstall<M>(p: PackageSpec, env: Env, w: World<M>)
    ensures forall i :: 0 <= i < |ImportParsed(p, env, w).trace| && ImportParsed(p, env, w).trace[i].Exec? ==>
              || ImportParsed(p, env, w).trace[i].command == VersionCommand
              || ImportParsed(p, env, w).trace[i].command == InstallCommand(p.name, p.version)
  {
    var t := ImportParsed(p, env, w).trace;
    if LocalMiss(p, w) {
      var c := Fallback(p, w).calls;
      FallbackOnlyProbeAndInstall(p, w);
      forall i | 0 <= i < |t| && t[i].Exec?
        ensures t[i].command == VersionCommand || t[i].command == InstallCommand(p.name, p.version)
      {
        assert t[i] == c[i - 1];
      }
    }
  }

  /** Each process the fallback starts is the version probe or the install command. */
  lemma FallbackOnlyProbeAndInstall<M>(p: PackageSpec, w: World<M>)
    ensures forall i :: 0 <= i < |Fallback(p, w).calls| && Fallback(p, w).calls[i].Exec? ==>
              || Fallback(p, w).calls[i].command == VersionCommand
              || Fallback(p, w).calls[i].command == InstallCommand(p.name, p.version)
  {
  }

  /**
    The install command, right after the probe, has exactly the text
    `npx -y -p <name>@<version> node -e 'console.log(process.env.PATH)'` and
    runs through a shell.
  */
  lemma InstallCommandText<M>(p: PackageSpec, env: Env, w: World<M>)
    requires |ImportParsed(p, env, w).trace| > 2
    ensures ImportParsed(p, env, w).trace[2] ==
              Exec(Command("npx -y -p " + p.name + "@" + p.version + " node -e 'console.log(process.env.PATH)'", true))
  {
    var t := ImportParsed(p, env, w).trace;
    var f := Fallback(p, w);
    assert t[2] == f.calls[1];
    var cmd := InstallCommand(p.name, p.version);
    assert cmd == Command(cmd.text, true);
  }
}
