/**
  The outside world as seen by `importOnDemand`: every effect the source
  performs (a native `import()`, an `execaCommand` process run, semver's
  reading of a version string, a `createRequire(dir)(path)` load) is a total
  function supplied by the caller, and each effect performed is recorded as a
  `Call` in the run's trace.
*/
module Host {
  import opened Options

  /** An `execaCommand(text, { shell })` invocation. */
  datatype Command = Command(text: string, shell: bool)

  /**
    How an `execaCommand` promise settles: a result object with `failed` and
    `stdout`, or a rejection whose error carries `message`.
  */
  datatype ExecOutcome = Finished(failed: bool, stdout: string) | Threw(message: string)

  /** A semantic version as semver reads it (pre-release and build tags not modelled). */
  datatype SemVer = SemVer(major: nat, minor: nat, patch: nat)

  /** How a `createRequire(dir)(path)` load ends: the module, or a thrown error's message. */
  datatype LoadOutcome<M> = LoadedModule(value: M) | LoadThrew(message: string)

  /**
    The effects, as functions of their arguments:
    - `nativeImport(path)`: the module `import(path)` resolves to, `None` when it rejects
      (for any reason, since the source catches every rejection alike);
    - `exec(cmd)`: how `execaCommand` settles for that command;
    - `readVersion(stdout)`: the version semver reads from `npx --version`'s output;
    - `requireFrom(dir, path)`: what loading `path` relative to `dir` gives.
  */
  datatype World<M> = World(
    nativeImport: string -> Option<M>,
    exec: Command -> ExecOutcome,
    readVersion: string -> SemVer,
    requireFrom: (string, string) -> LoadOutcome<M>)

  /** One effect performed, in the order performed. */
  datatype Call =
    | NativeImport(importPath: string)
    | Exec(command: Command)
    | RequireFrom(dir: string, importPath: string)
}
