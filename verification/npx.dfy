/**
  The npx side of the fallback path: `checkNpxVersion` (the npm 8+ gate) and
  `installAndReturnDir` (one ephemeral `npx -y -p` install whose shell prints
  `PATH`, from which the temporary `node_modules` directory is recovered).
  Each failure the source throws is a `Fault`, whose `Message` is the text of
  the error the source constructs.
*/
module Npx {
  import opened Options
  import opened Text
  import opened Host

  /** The errors thrown inside the fallback `try` block of `importOnDemand`. */
  datatype Fault =
    | NpxUnavailable                              // `npx --version` reported `failed`
    | NpxTooOld(reported: string)                 // its output is below version 8.0.0
    | Rejected(message: string)                   // a process run or the relative load threw
    | InstallFailed(name: string, version: string) // the install command reported `failed`
    | NoTempDir(paths: seq<string>)               // no PATH entry lies in npx's cache
    | BadLayout(tempPath: string)                 // that entry's parent is not a node_modules directory
  {
    /** The `message` of the error the source throws for this fault. */
    function Message(): string {
      match this
      case NpxUnavailable =>
        "Couldn't execute npx --version. Is npm installed and up-to-date?"
      case NpxTooOld(v) =>
        "Require npm version 8+. Got '" + v + "' when running '" + VersionCommandText + "'"
      case Rejected(m) => m
      case InstallFailed(name, version) =>
        "Failed installing " + name + " using: " + InstallPackage(name, version) + "."
      case NoTempDir(paths) =>
        "Failed to find temporary install directory. Looking for paths matching '"
        + NpxCacheMarker + "' in:\n" + JsonStringArray(paths)
      case BadLayout(tempPath) =>
        "Found NPX temporary path of '" + tempPath
        + "' but expected to be able to find a node_modules directory by looking in '..'."
    }
  }

  // The exact text of each error, one lemma per `throw` site.

  /** `npx --version` reported `failed`. */
  lemma NpxUnavailableText()
    ensures NpxUnavailable.Message() == "Couldn't execute npx --version. Is npm installed and up-to-date?"
  {
  }

  /** The reported version is below 8.0.0; the text quotes it and the probe command. */
  lemma NpxTooOldText(v: string)
    ensures NpxTooOld(v).Message() == "Require npm version 8+. Got '" + v + "' when running 'npx --version'"
  {
  }

  /** The install command reported `failed`; the text names the package and the `npx -y -p` part of the command. */
  lemma InstallFailedText(name: string, version: string)
    ensures InstallFailed(name, version).Message() == "Failed installing " + name + " using: npx -y -p " + name + "@" + version + "."
  {
    assert "Failed installing " + name + " using: " + InstallPackage(name, version)
        == "Failed installing " + name + " using: " + ("npx -y -p " + name + "@" + version);
  }

  /** No PATH entry is in the cache; the text names the marker and then lists the entries as a JSON array. */
  lemma NoTempDirText(paths: seq<string>)
    ensures NoTempDir(paths).Message()
         == "Failed to find temporary install directory. Looking for paths matching '/.npm/_npx/' in:\n" + JsonStringArray(paths)
  {
  }

  /** The cache entry's parent is not a `node_modules` directory; the text quotes the entry. */
  lemma BadLayoutText(tempPath: string)
    ensures BadLayout(tempPath).Message()
         == "Found NPX temporary path of '" + tempPath
            + "' but expected to be able to find a node_modules directory by looking in '..'."
  {
  }

  /** A rejection (of a process run or of the relative load) is reported with its own message, unchanged. */
  lemma RejectedText(m: string)
    ensures Rejected(m).Message() == m
  {
  }

  /** A step either produces a value or throws a fault. */
  datatype Attempt<T> = Done(value: T) | Fail(fault: Fault)

  /** A step's result together with the effects it performed. */
  datatype Step<T> = Step(result: Attempt<T>, calls: seq<Call>)

  // ---------------------------------------------------------------------------
  // The version gate

  const VersionCommandText: string := "npx --version"

  /** `execaCommand('npx --version')`, run without a shell. */
  const VersionCommand: Command := Command(VersionCommandText, false)

  /** Lexicographic order on (major, minor, patch): semver's `gte`. */
  predicate AtLeast(v: SemVer, floor: SemVer) {
    || v.major > floor.major
    || (v.major == floor.major && v.minor > floor.minor)
    || (v.major == floor.major && v.minor == floor.minor && v.patch >= floor.patch)
  }

  /** `semver.gte(v, '8.0.0')`: any version whose major number is 8 or more. */
  predicate MeetsMin8(v: SemVer)
    ensures MeetsMin8(v) <==> v.major >= 8
  {
    AtLeast(v, SemVer(8, 0, 0))
  }

  /** The gate lets the install go ahead: `npx --version` ran and reported npm 8 or later. */
  predicate NpxUsable(exec: Command -> ExecOutcome, readVersion: string -> SemVer) {
    match exec(VersionCommand)
    case Finished(failed, out) => !failed && MeetsMin8(readVersion(out))
    case Threw(_) => false
  }

  /**
    `checkNpxVersion()`: runs exactly `npx --version` once and succeeds
    exactly when npx is usable; otherwise it fails with the source's
    messages (or passes a rejection's message through).
  */
  function CheckNpxVersion(exec: Command -> ExecOutcome, readVersion: string -> SemVer): (r: Step<()>)
    ensures r.calls == [Exec(Command("npx --version", false))]
    ensures r.result.Done? <==> NpxUsable(exec, readVersion)
    ensures exec(VersionCommand).Threw? ==> r.result == Fail(Rejected(exec(VersionCommand).message))
    ensures exec(VersionCommand).Finished? && exec(VersionCommand).failed ==>
              r.result.Fail? && r.result.fault.Message() == "Couldn't execute npx --version. Is npm installed and up-to-date?"
    ensures exec(VersionCommand).Finished? && !exec(VersionCommand).failed && !MeetsMin8(readVersion(exec(VersionCommand).stdout)) ==>
              r.result.Fail? && r.result.fault.Message() ==
                "Require npm version 8+. Got '" + exec(VersionCommand).stdout + "' when running 'npx --version'"
  {
    var result :=
      match exec(VersionCommand)
      case Threw(m) => Fail(Rejected(m))
      case Finished(failed, out) =>
        if failed then Fail(NpxUnavailable)
        else if !MeetsMin8(readVersion(out)) then Fail(NpxTooOld(out))
        else Done(());
    Step(result, [Exec(VersionCommand)])
  }

  // ---------------------------------------------------------------------------
  // The install command

  /** `npx -y -p <name>@<version>`. */
  function InstallPackage(name: string, version: string): string {
    "npx -y -p " + name + "@" + version
  }

  /** The inline command the install runs to print the shell's `PATH`. */
  const EmitPath: string := "node -e 'console.log(process.env.PATH)'"

  /** The one install command, run through a shell because of the inline print. */
  function InstallCommand(name: string, version: string): (cmd: Command)
    ensures cmd.shell
    ensures cmd.text == "npx -y -p " + name + "@" + version + " node -e 'console.log(process.env.PATH)'"
  {
    Command(InstallPackage(name, version) + " " + EmitPath, true)
  }

  // ---------------------------------------------------------------------------
  // Recovering the install directory from the printed PATH

  /** The substring (`/\/\.npm\/_npx\//`) that marks a directory inside npx's temporary cache. */
  const NpxCacheMarker: string := "/.npm/_npx/"

  predicate InNpxCache(segment: string) {
    Contains(segment, NpxCacheMarker)
  }

  /** `k` is the position of the first PATH entry inside npx's cache. */
  predicate IsFirstInNpxCache(paths: seq<string>, k: int) {
    && 0 <= k < |paths|
    && InNpxCache(paths[k])
    && forall j :: 0 <= j < k ==> !InNpxCache(paths[j])
  }

  /** Where `paths.find(...)` stops: the position of the first cache entry, if any. */
  function FirstInNpxCache(paths: seq<string>): (r: Option<nat>)
    ensures r.Some? ==> IsFirstInNpxCache(paths, r.value)
    ensures r.None? ==> forall k :: 0 <= k < |paths| ==> !InNpxCache(paths[k])
    decreases |paths|
  {
    if |paths| == 0 then None
    else if InNpxCache(paths[0]) then Some(0)
    else
      match FirstInNpxCache(paths[1..])
      case None => None
      case Some(i) => Some(i + 1)
  }

  /** There is only one first cache entry. */
  lemma FirstInNpxCacheUnique(paths: seq<string>, i: int, j: int)
    requires IsFirstInNpxCache(paths, i) && IsFirstInNpxCache(paths, j)
    ensures i == j
  {
  }

  /** The error for a PATH without a cache entry quotes every entry, as a JSON string, for the user to inspect. */
  lemma NoTempDirListsEveryEntry(paths: seq<string>, k: nat)
    requires k < |paths|
    ensures Contains(NoTempDir(paths).Message(), JsonString(paths[k]))
  {
    JsonStringArrayListsElement(paths, k);
    ContainsPrepend("Failed to find temporary install directory. Looking for paths matching '"
                    + NpxCacheMarker + "' in:\n", JsonStringArray(paths), JsonString(paths[k]));
  }

  /** Position of the last `/` of `p`. */
  function LastSlash(p: string): (r: Option<nat>)
    ensures r.Some? ==> r.value < |p| && p[r.value] == '/'
    ensures r.Some? ==> forall k :: r.value < k < |p| ==> p[k] != '/'
    ensures r.None? ==> '/' !in p
    decreases |p|
  {
    if |p| == 0 then None
    else if p[|p| - 1] == '/' then Some(|p| - 1)
    else LastSlash(p[..|p| - 1])
  }

  /**
    `path.resolve(p, '..')` for an absolute path without `.`/`..` entries or a
    trailing `/`: `p` without its last entry.  (A path with no `/` resolves
    against the working directory, written here as `.`.)
  */
  function Parent(p: string): (r: string)
    ensures '/' !in p ==> r == "."
    ensures '/' in p ==> StartsWith(p, r)
    ensures '/' in p && r != "/" ==> |r| < |p| && p[|r|] == '/' && '/' !in p[|r| + 1..]
  {
    match LastSlash(p)
    case None => "."
    case Some(i) => if i == 0 then "/" else p[..i]
  }

  /** The parent of `dir/leaf` is `dir`. */
  lemma ParentOfChild(dir: string, leaf: string)
    requires |dir| > 0
    requires '/' !in leaf
    ensures Parent(dir + "/" + leaf) == dir
  {
    var p := dir + "/" + leaf;
    assert p[|dir|] == '/';
    assert forall k :: |dir| < k < |p| ==> p[k] == leaf[k - |dir| - 1];
    assert p[..|dir|] == dir;
  }

  /**
    The part of `installAndReturnDir` after the install has run: split the
    printed PATH on `:`, take the first entry inside npx's cache, and return
    its parent provided that parent's name ends in `node_modules`.
  */
  function LocateInstallDir(stdout: string): (r: Attempt<string>)
    ensures r.Done? ==> EndsWith(r.value, "node_modules")
    ensures r.Done? ==>
              exists k :: IsFirstInNpxCache(Split(stdout, ':'), k) && r.value == Parent(Split(stdout, ':')[k])
    ensures r.Fail? ==> r.fault.NoTempDir? || r.fault.BadLayout?
    ensures r.Fail? && r.fault.NoTempDir? ==> r.fault.paths == Split(stdout, ':')
    ensures r == Fail(NoTempDir(Split(stdout, ':'))) <==>
              forall k :: 0 <= k < |Split(stdout, ':')| ==> !InNpxCache(Split(stdout, ':')[k])
    ensures r.Fail? && r.fault.BadLayout? ==>
              exists k :: IsFirstInNpxCache(Split(stdout, ':'), k)
                && r.fault.tempPath == Split(stdout, ':')[k]
                && !EndsWith(Parent(Split(stdout, ':')[k]), "node_modules")
  {
    var paths := Split(stdout, ':');
    match FirstInNpxCache(paths)
    case None => Fail(NoTempDir(paths))
    case Some(k) =>
      assert IsFirstInNpxCache(paths, k);
      var tempPath := paths[k];
      var nodeModulesPath := Parent(tempPath);
      if !EndsWith(nodeModulesPath, "node_modules") then Fail(BadLayout(tempPath))
      else Done(nodeModulesPath)
  }

  /**
    When the first cache entry is `dir/leaf`, the install directory is `dir`
    if its name ends in `node_modules`, and the layout check fails on that
    entry otherwise.  The check is on the text, not on whole entries: any
    name ending in `node_modules` passes.
  */
  lemma LocateChild(stdout: string, k: nat, dir: string, leaf: string)
    requires IsFirstInNpxCache(Split(stdout, ':'), k)
    requires Split(stdout, ':')[k] == dir + "/" + leaf
    requires |dir| > 0 && '/' !in leaf
    ensures EndsWith(dir, "node_modules") ==> LocateInstallDir(stdout) == Done(dir)
    ensures !EndsWith(dir, "node_modules") ==> LocateInstallDir(stdout) == Fail(BadLayout(dir + "/" + leaf))
  {
    var paths := Split(stdout, ':');
    var i := FirstInNpxCache(paths).value;
    FirstInNpxCacheUnique(paths, i, k);
    ParentOfChild(dir, leaf);
  }

  /**
    `installAndReturnDir(name, version)`: issues exactly one command, the
    shell-run `npx -y -p name@version node -e '...PATH...'`; a rejection's
    message passes through unmodified, a `failed` run names the install
    command, and a completed run yields a directory whose name ends in
    `node_modules` recovered from its output.
  */
  function InstallAndReturnDir(name: string, version: string, exec: Command -> ExecOutcome): (r: Step<string>)
    ensures r.calls == [Exec(InstallCommand(name, version))]
    ensures exec(InstallCommand(name, version)).Threw? ==>
              r.result == Fail(Rejected(exec(InstallCommand(name, version)).message))
    ensures exec(InstallCommand(name, version)).Finished? && exec(InstallCommand(name, version)).failed ==>
              r.result.Fail? && r.result.fault.Message() ==
                "Failed installing " + name + " using: npx -y -p " + name + "@" + version + "."
    ensures exec(InstallCommand(name, version)).Finished? && !exec(InstallCommand(name, version)).failed ==>
              r.result == LocateInstallDir(exec(InstallCommand(name, version)).stdout)
    ensures r.result.Done? ==> EndsWith(r.result.value, "node_modules")
  {
    var cmd := InstallCommand(name, version);
    var result :=
      match exec(cmd)
      case Threw(m) => Fail(Rejected(m))
      case Finished(failed, out) =>
        if failed then Fail(InstallFailed(name, version)) else LocateInstallDir(out);
    Step(result, [Exec(cmd)])
  }
}
