/**
  The package-manager advisor: `getPackageManager` guesses which of npm, pnpm
  or yarn the host project uses, and `installInstructions` turns the guess
  into the remediation command printed in every failure message.  The three
  process-environment reads become fields of an explicit `Env` value.
*/
module PackageManagers {
  import opened Options
  import opened Text

  datatype PackageManager = Npm | Pnpm | Yarn

  /**
    What `getPackageManager` reads: `process.env.npm_config_user_agent`,
    `process.env.npm_execpath` and `process.mainModule?.path`.
  */
  datatype Env = Env(userAgent: Option<string>, execPath: Option<string>, mainModulePath: Option<string>)

  /** The variable's text, with an unset variable read as the (equally falsy) empty string. */
  function TextOf(v: Option<string>): string {
    match v
    case None => ""
    case Some(s) => s
  }

  // The three tests, one per source of evidence, in the order the source tries them.

  /** `userAgent.startsWith(...)`, trying `pnpm`, then `yarn`, then `npm`. */
  function FromUserAgent(ua: string): Option<PackageManager> {
    if StartsWith(ua, "pnpm") then Some(Pnpm)
    else if StartsWith(ua, "yarn") then Some(Yarn)
    else if StartsWith(ua, "npm") then Some(Npm)
    else None
  }

  /** `/np[xm]-cli\.js$/` gives npm, then `/yarn$/` gives yarn. */
  function FromExecPath(path: string): Option<PackageManager> {
    if EndsWith(path, "npx-cli.js") || EndsWith(path, "npm-cli.js") then Some(Npm)
    else if EndsWith(path, "yarn") then Some(Yarn)
    else None
  }

  /** `/\/\.?pnpm\//` gives pnpm, then `/\/\.?yarn\//` gives yarn. */
  function FromMainModule(path: string): Option<PackageManager> {
    if Contains(path, "/pnpm/") || Contains(path, "/.pnpm/") then Some(Pnpm)
    else if Contains(path, "/yarn/") || Contains(path, "/.yarn/") then Some(Yarn)
    else None
  }

  /**
    `getPackageManager()`: the first source of evidence that names a manager
    decides; with no evidence the answer is npm.
  */
  function GetPackageManager(env: Env): (pm: PackageManager)
    // the user agent decides whenever it starts with a manager's name
    ensures StartsWith(TextOf(env.userAgent), "pnpm") ==> pm == Pnpm
    ensures StartsWith(TextOf(env.userAgent), "yarn") ==> pm == Yarn
    ensures StartsWith(TextOf(env.userAgent), "npm") ==> pm == Npm
    // otherwise the executing script's file name decides
    ensures FromUserAgent(TextOf(env.userAgent)).None? ==>
              (EndsWith(TextOf(env.execPath), "npx-cli.js") || EndsWith(TextOf(env.execPath), "npm-cli.js")) ==> pm == Npm
    ensures FromUserAgent(TextOf(env.userAgent)).None? ==>
              EndsWith(TextOf(env.execPath), "yarn") ==> pm == Yarn
    // otherwise a pnpm or yarn store directory on the main module's path decides
    ensures FromUserAgent(TextOf(env.userAgent)).None? && FromExecPath(TextOf(env.execPath)).None? ==>
              (Contains(TextOf(env.mainModulePath), "/pnpm/") || Contains(TextOf(env.mainModulePath), "/.pnpm/")) ==> pm == Pnpm
    ensures FromUserAgent(TextOf(env.userAgent)).None? && FromExecPath(TextOf(env.execPath)).None? ==>
              !Contains(TextOf(env.mainModulePath), "/pnpm/") && !Contains(TextOf(env.mainModulePath), "/.pnpm/") ==>
              (Contains(TextOf(env.mainModulePath), "/yarn/") || Contains(TextOf(env.mainModulePath), "/.yarn/")) ==> pm == Yarn
    // and with no evidence at all the answer is npm
    ensures (FromUserAgent(TextOf(env.userAgent)).None? && FromExecPath(TextOf(env.execPath)).None?
             && FromMainModule(TextOf(env.mainModulePath)).None?) ==> pm == Npm
    // pnpm and yarn are only ever named on positive evidence
    ensures pm == Pnpm ==>
              StartsWith(TextOf(env.userAgent), "pnpm")
              || (Contains(TextOf(env.mainModulePath), "/pnpm/") || Contains(TextOf(env.mainModulePath), "/.pnpm/"))
    ensures pm == Yarn ==>
              StartsWith(TextOf(env.userAgent), "yarn")
              || EndsWith(TextOf(env.execPath), "yarn")
              || Contains(TextOf(env.mainModulePath), "/yarn/") || Contains(TextOf(env.mainModulePath), "/.yarn/")
  {
    var ua, exec := TextOf(env.userAgent), TextOf(env.execPath);
    // the three user-agent prefixes start with different letters, the two
    // script-name suffixes end with different letters
    assert StartsWith(ua, "pnpm") ==> ua[0] == 'p';
    assert StartsWith(ua, "yarn") ==> ua[0] == 'y';
    assert StartsWith(ua, "npm") ==> ua[0] == 'n';
    assert EndsWith(exec, "npx-cli.js") || EndsWith(exec, "npm-cli.js") ==> exec[|exec| - 1] == 's';
    assert EndsWith(exec, "yarn") ==> exec[|exec| - 1] == 'n';
    match FromUserAgent(ua)
    case Some(pm) => pm
    case None =>
      match FromExecPath(exec)
      case Some(pm) => pm
      case None =>
        match FromMainModule(TextOf(env.mainModulePath))
        case Some(pm) => pm
        case None => Npm
  }

  /** With no evidence at all the advisor falls back to npm. */
  lemma NoEvidenceMeansNpm(env: Env)
    requires env.userAgent.None? && env.execPath.None? && env.mainModulePath.None?
    ensures GetPackageManager(env) == Npm
  {
  }

  /** The command prefix of `INSTRUCTIONS[pm]`. */
  function InstallVerb(pm: PackageManager): string {
    match pm
    case Npm => "npm install --save-dev"
    case Pnpm => "pnpm add -D"
    case Yarn => "yarn add -D"
  }

  /** `INSTRUCTIONS[pm](target)`: the manager's install verb, one space, then the target and nothing else. */
  function Instructions(pm: PackageManager, target: string): (s: string)
    ensures StartsWith(s, InstallVerb(pm) + " ")
    ensures |s| == |InstallVerb(pm)| + 1 + |target|
    ensures s[|InstallVerb(pm)| + 1..] == target
  {
    var s := InstallVerb(pm) + " " + target;
    assert s[|InstallVerb(pm)| + 1..] == target;
    s
  }

  /**
    The remediation text names its manager and target unambiguously: two
    instructions are equal only for the same manager and the same target.
  */
  lemma InstructionsInjective(pm1: PackageManager, t1: string, pm2: PackageManager, t2: string)
    requires Instructions(pm1, t1) == Instructions(pm2, t2)
    ensures pm1 == pm2 && t1 == t2
  {
    var s := Instructions(pm1, t1);
    assert s[0] == InstallVerb(pm1)[0] && s[0] == InstallVerb(pm2)[0];
    var n := |InstallVerb(pm1)| + 1;
    assert s[n..] == t1;
    assert s[n..] == t2;
  }

  /**
    `installInstructions(name, version)`: the detected manager's install
    command for `name@version`.
  */
  function InstallInstructions(name: string, version: string, env: Env): (s: string)
    ensures StartsWith(s, InstallVerb(GetPackageManager(env)) + " ")
    ensures EndsWith(s, " " + name + "@" + version)
    ensures |s| == |InstallVerb(GetPackageManager(env))| + 1 + |name| + 1 + |version|
    ensures s[|InstallVerb(GetPackageManager(env))| + 1..] == name + "@" + version
  {
    var s := Instructions(GetPackageManager(env), name + "@" + version);
    assert s == InstallVerb(GetPackageManager(env)) + " " + (name + "@" + version);
    s
  }
}
