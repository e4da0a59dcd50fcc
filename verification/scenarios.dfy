/**
  The cases of the repository's test suite (test/testy.test.ts), stated for
  every package name of the shape the suite uses rather than for its one
  literal, plus an end-to-end install.  Each world is pinned only where the
  run looks: the native import's answer for the import path, and the process
  results and version reading the fallback consumes.
*/
module Scenarios {
  import opened Options
  import opened Text
  import opened Specifier
  import opened PackageManagers
  import opened Host
  import opened Npx
  import opened Orchestrator

  /** The names, versions, tag and path of the suite's "already installed" cases are accepted by `parse`. */
  lemma SuiteSpecifierParts()
    ensures ValidName("fake-library") && ValidName("@fake/library")
    ensures ValidVersion("1.2.3") && ValidVersion("beta")
    ensures LineFree("lib/utils.js")
  {
    BareNameValid("fake-library");
    ScopedNameValid("fake", "library");
  }

  /** So are the names of its failure cases. */
  lemma SuiteFailureNames()
    ensures ValidName("no-npx-existo") && ValidName("npm-too-old") && ValidName("broken-install")
  {
    BareNameValid("no-npx-existo");
    BareNameValid("npm-too-old");
    BareNameValid("broken-install");
  }

  // ---------------------------------------------------------------------------
  // "already installed": the native import of the version-free path succeeds,
  // and that import is the only effect

  /** A bare specifier (`fake-library`, `@fake/library`) is imported as it is. */
  lemma LoadsNameAsIs<M>(name: string, env: Env, w: World<M>)
    requires ValidName(name)
    requires w.nativeImport(name).Some?
    ensures ImportOnDemand(name, env, w) == Run(Loaded(w.nativeImport(name).value), [NativeImport(name)])
  {
    var p := PackageSpec(name, DefaultVersion, "");
    ParseImportPath(p);
  }

  /** A version or tag (`fake-library@1.2.3`, `@fake/library@beta`) is dropped from the imported path. */
  lemma LoadsIgnoringVersion<M>(name: string, version: string, env: Env, w: World<M>)
    requires ValidName(name) && ValidVersion(version)
    requires w.nativeImport(name).Some?
    ensures ImportOnDemand(name + "@" + version, env, w) == Run(Loaded(w.nativeImport(name).value), [NativeImport(name)])
  {
    var p := PackageSpec(name, version, "");
    ParseFormat(p);
    assert Format(p) == name + "@" + version;
  }

  /** A path inside the package (`fake-library/lib/utils.js`) is passed through. */
  lemma LoadsWithPath<M>(name: string, path: string, env: Env, w: World<M>)
    requires ValidName(name) && |path| > 0 && LineFree(path)
    requires w.nativeImport(name + "/" + path).Some?
    ensures ImportOnDemand(name + "/" + path, env, w)
         == Run(Loaded(w.nativeImport(name + "/" + path).value), [NativeImport(name + "/" + path)])
  {
    var p := PackageSpec(name, DefaultVersion, path);
    ParseImportPath(p);
  }

  /**
    With both (`@fake/library@1.2.3/lib/utils.js`), the version goes and the
    path stays: the native import is of `name/path`.
  */
  lemma LoadsVersionAndPath<M>(name: string, version: string, path: string, env: Env, w: World<M>)
    requires ValidName(name) && ValidVersion(version) && |path| > 0 && LineFree(path)
    requires w.nativeImport(name + "/" + path).Some?
    ensures ImportOnDemand(name + "@" + version + "/" + path, env, w)
         == Run(Loaded(w.nativeImport(name + "/" + path).value), [NativeImport(name + "/" + path)])
  {
    var p := PackageSpec(name, version, path);
    ParseFormat(p);
    assert Format(p) == name + "@" + version + "/" + path;
  }

  // ---------------------------------------------------------------------------
  // "failure cases": the native import misses, and the first process run is
  // always `npx --version`

  /** How `importOnDemand(name)` reads a bare valid name. */
  lemma ParsesBareName(name: string)
    requires ValidName(name)
    ensures Parse(name) == Some(PackageSpec(name, DefaultVersion, ""))
    ensures ImportPath(PackageSpec(name, DefaultVersion, "")) == name
  {
    ParseImportPath(PackageSpec(name, DefaultVersion, ""));
  }

  /** `npx --version` reports `failed` (`no-npx-existo`): the run stops with npx's own complaint. */
  lemma FailsWithoutNpx<M>(name: string, env: Env, w: World<M>)
    requires ValidName(name)
    requires w.nativeImport(name).None?
    requires w.exec(Command("npx --version", false)).Finished? && w.exec(Command("npx --version", false)).failed
    ensures ImportOnDemand(name, env, w).trace == [NativeImport(name), Exec(Command("npx --version", false))]
    ensures ImportOnDemand(name, env, w).outcome.Failed?
    ensures Contains(ImportOnDemand(name, env, w).outcome.message,
                     "Couldn't execute npx --version. Is npm installed and up-to-date?")
  {
    ParsesBareName(name);
    var p := PackageSpec(name, DefaultVersion, "");
    FailedGateIssuesNoInstall(p, env, w);
  }

  /** The gate's message for the version the suite's old npx reports, spelled out as the suite pins it. */
  lemma SuiteTooOldText()
    ensures NpxTooOld("7.1.2").Message() == "Require npm version 8+. Got '7.1.2' when running 'npx --version'"
  {
    NpxTooOldText("7.1.2");
  }

  /** npx reports `7.1.2` (`npm-too-old`): the run stops, quoting the version it got. */
  lemma FailsWithOldNpx<M>(name: string, env: Env, w: World<M>)
    requires ValidName(name)
    requires w.nativeImport(name).None?
    requires w.exec(Command("npx --version", false)) == Finished(false, "7.1.2")
    requires w.readVersion("7.1.2") == SemVer(7, 1, 2)
    ensures ImportOnDemand(name, env, w).trace == [NativeImport(name), Exec(Command("npx --version", false))]
    ensures ImportOnDemand(name, env, w).outcome.Failed?
    ensures Contains(ImportOnDemand(name, env, w).outcome.message,
                     "Require npm version 8+. Got '7.1.2' when running 'npx --version'")
  {
    ParsesBareName(name);
    var p := PackageSpec(name, DefaultVersion, "");
    FailedGateIssuesNoInstall(p, env, w);
    SuiteTooOldText();
  }

  /**
    npx reports `8.1.2`, and the install (`broken-install`) throws
    `EXPLODED TRYING TO INSTALL` under pnpm: the install command is the
    shell-run `npx -y -p <name>@latest ...`, and the error quotes the
    rejection, advises a local install and gives pnpm's command, in that order.
  */
  lemma PassesInstallErrorThrough<M>(name: string, env: Env, w: World<M>)
    requires ValidName(name)
    requires w.nativeImport(name).None?
    requires w.exec(Command("npx --version", false)) == Finished(false, "8.1.2")
    requires w.readVersion("8.1.2") == SemVer(8, 1, 2)
    requires w.exec(Command("npx -y -p " + name + "@latest" + " node -e 'console.log(process.env.PATH)'", true))
             == Threw("EXPLODED TRYING TO INSTALL")
    requires StartsWith(TextOf(env.userAgent), "pnpm")
    ensures ImportOnDemand(name, env, w).trace ==
              [NativeImport(name), Exec(Command("npx --version", false)),
               Exec(Command("npx -y -p " + name + "@latest" + " node -e 'console.log(process.env.PATH)'", true))]
    ensures ImportOnDemand(name, env, w).outcome.Failed?
    ensures ContainsInOrder(ImportOnDemand(name, env, w).outcome.message,
              ["EXPLODED TRYING TO INSTALL", "You should install " + name + " locally:", "pnpm add -D " + name + "@latest"])
  {
    ParsesBareName(name);
    var p := PackageSpec(name, DefaultVersion, "");
    InstallCommandForLatest(name);
    PnpmInstructionsForLatest(name, env);
    var r := ImportParsed(p, env, w);
    assert r.trace == [NativeImport(name)] + Fallback(p, w).calls;
    assert r.outcome.cause == Rejected("EXPLODED TRYING TO INSTALL");
    MessageAfterName(p, env, w);
  }

  /** With the default version, the install command asks npx for `<name>@latest`. */
  lemma InstallCommandForLatest(name: string)
    ensures InstallCommand(name, DefaultVersion)
         == Command("npx -y -p " + name + "@latest" + " node -e 'console.log(process.env.PATH)'", true)
  {
    assert "@" + DefaultVersion == "@latest";
    assert "npx -y -p " + name + "@" + DefaultVersion == "npx -y -p " + name + ("@" + DefaultVersion);
  }

  /** Under pnpm, the remediation for the default version is `pnpm add -D <name>@latest`. */
  lemma PnpmInstructionsForLatest(name: string, env: Env)
    requires StartsWith(TextOf(env.userAgent), "pnpm")
    ensures InstallInstructions(name, DefaultVersion, env) == "pnpm add -D " + name + "@latest"
  {
    assert "@" + DefaultVersion == "@latest";
    assert "pnpm add -D" + " " == "pnpm add -D ";
  }

  /** After the import path, a failed run's message quotes the cause, the local-install hint and the remediation, in order. */
  lemma MessageAfterName<M>(p: PackageSpec, env: Env, w: World<M>)
    requires ImportParsed(p, env, w).outcome.Failed?
    ensures ContainsInOrder(ImportParsed(p, env, w).outcome.message,
              [ImportParsed(p, env, w).outcome.cause.Message(), InstallLocallyHint(p.name), InstallInstructions(p.name, p.version, env)])
  {
    var r := ImportParsed(p, env, w);
    var pieces := [ImportPath(p), r.outcome.cause.Message(), InstallLocallyHint(p.name), InstallInstructions(p.name, p.version, env)];
    FailureNamesEverything(p, env, w);
    ContainsInOrderTail(r.outcome.message, pieces);
    assert pieces[1..] == [r.outcome.cause.Message(), InstallLocallyHint(p.name), InstallInstructions(p.name, p.version, env)];
  }

  // ---------------------------------------------------------------------------
  // A successful install

  /** A directory `<home>/.npm/_npx/<hash>/node_modules` lies in npx's cache and passes the layout check. */
  lemma CacheDirShape(home: string, hash: string)
    ensures InNpxCache(home + "/.npm/_npx/" + hash + "/node_modules")
    ensures EndsWith(home + "/.npm/_npx/" + hash + "/node_modules", "node_modules")
  {
    ContainsInfix(home, "/.npm/_npx/", hash + "/node_modules");
    assert home + "/.npm/_npx/" + (hash + "/node_modules") == home + "/.npm/_npx/" + hash + "/node_modules";
  }

  /**
    A PATH, printed as separator-free entries joined with `:`, whose first
    entry inside npx's cache is `<dir>/<leaf>` (typically `.bin`), yields
    `dir` when its name ends in `node_modules` and the layout error for that
    entry otherwise.
  */
  lemma LocatesFromPrintedPath(entries: seq<string>, k: nat, dir: string, leaf: string)
    requires |entries| >= 1 && forall j :: 0 <= j < |entries| ==> ':' !in entries[j]
    requires IsFirstInNpxCache(entries, k) && entries[k] == dir + "/" + leaf
    requires |dir| > 0 && '/' !in leaf
    ensures EndsWith(dir, "node_modules") ==> LocateInstallDir(Join(entries, ':')) == Done(dir)
    ensures !EndsWith(dir, "node_modules") ==> LocateInstallDir(Join(entries, ':')) == Fail(BadLayout(dir + "/" + leaf))
  {
    SplitJoin(entries, ':');
    LocateChild(Join(entries, ':'), k, dir, leaf);
  }

  /** A passed gate, an install that yields `dir` and a load from `dir` make the fallback load the module. */
  lemma FallbackLoads<M>(p: PackageSpec, w: World<M>, dir: string, m: M)
    requires NpxUsable(w.exec, w.readVersion)
    requires InstallAndReturnDir(p.name, p.version, w.exec).result == Done(dir)
    requires w.requireFrom(dir, ImportPath(p)) == LoadedModule(m)
    ensures Fallback(p, w) ==
              Step(Done(m), [Exec(VersionCommand), Exec(InstallCommand(p.name, p.version)), RequireFrom(dir, ImportPath(p))])
  {
    var gate := CheckNpxVersion(w.exec, w.readVersion);
    assert gate.result == Done(());
    var install := InstallAndReturnDir(p.name, p.version, w.exec);
    assert Fallback(p, w) == Step(Done(m), gate.calls + install.calls + [RequireFrom(dir, ImportPath(p))]);
  }

  /**
    The install prints such a PATH for a `node_modules` directory (as
    `<home>/.npm/_npx/<hash>/node_modules` is, by `CacheDirShape`), and the
    package loads from `dir`: the run loads it from there after exactly the
    four effects of the fallback path.
  */
  lemma InstallsAndLoads<M>(p: PackageSpec, env: Env, w: World<M>, entries: seq<string>, k: nat, dir: string, leaf: string, m: M)
    requires LocalMiss(p, w) && NpxUsable(w.exec, w.readVersion)
    requires |entries| >= 1 && forall j :: 0 <= j < |entries| ==> ':' !in entries[j]
    requires IsFirstInNpxCache(entries, k) && entries[k] == dir + "/" + leaf && '/' !in leaf
    requires EndsWith(dir, "node_modules")
    requires w.exec(InstallCommand(p.name, p.version)) == Finished(false, Join(entries, ':'))
    requires w.requireFrom(dir, ImportPath(p)) == LoadedModule(m)
    ensures ImportParsed(p, env, w).outcome == Loaded(m)
    ensures ImportParsed(p, env, w).trace ==
              [NativeImport(ImportPath(p)), Exec(VersionCommand), Exec(InstallCommand(p.name, p.version)),
               RequireFrom(dir, ImportPath(p))]
  {
    LocatesFromPrintedPath(entries, k, dir, leaf);
    assert InstallAndReturnDir(p.name, p.version, w.exec).result == Done(dir);
    FallbackLoads(p, w, dir, m);
    var probe, install, load := Exec(VersionCommand), Exec(InstallCommand(p.name, p.version)), RequireFrom(dir, ImportPath(p));
    var native := NativeImport(ImportPath(p));
    assert ImportParsed(p, env, w).trace == [native] + [probe, install, load];
    PrependOne(native, [probe, install, load]);
  }
}
