# npx-import: `importOnDemand`, modelled in Dafny

`importOnDemand(pkg)` loads an npm package without installing it into the
host project. It parses the specifier `name[@version][/path]`, then tries a
native `import()` of `name[/path]`; a hit is returned and nothing else runs.
On a miss it checks that `npx --version` reports npm 8 or later. It then runs
one ephemeral install through a shell,
`npx -y -p <name>@<version> node -e 'console.log(process.env.PATH)'`, and
finds the temporary install directory in the printed `PATH`. That directory
is the first `:`-separated entry containing `/.npm/_npx/`, minus its last
component, and its name must end in `node_modules`. Finally it loads
`name[/path]` relative to that directory. Any failure after the miss is
rethrown as one error. The error names the import path and quotes the root
cause. It also gives the install command for the package manager that
`getPackageManager` detects (npm, pnpm or yarn).

The model is pure. Everything the source does to the outside world goes
through a `Host.World`: the native import, process runs, version parsing and
the relative `require`. A `World` is a record of total functions supplied by
the caller. Every effect a run performs is recorded, in order, as a
`Host.Call` in the run's trace. The process environment that
`getPackageManager` reads is an explicit `PackageManagers.Env` value.

Modules:

- `Options`: the option type.
- `Text`: string predicates; JavaScript's `split`/`join` for one-character
  separators and their round trips; `JSON.stringify` of a string array;
  ordered containment.
- `Specifier`: `parse` from parse-package-name, reconstructed from its
  regular expressions (with the path's leading `/` assumed removed, as the
  test vectors expect). It also holds the canonical text of a specifier and
  the import path (`src/index.ts` lines 13-14).
- `PackageManagers`: `getPackageManager`, `INSTRUCTIONS` and
  `installInstructions`.
- `Host`: the world oracle, commands and process outcomes, and trace entries.
- `Npx`: `checkNpxVersion`, `installAndReturnDir` and the error texts they
  throw.
- `Orchestrator`: `importOnDemand` itself, and properties of whole runs.
- `Scenarios`: the cases of `test/testy.test.ts`, stated for every name of
  the shape the suite uses, plus an install that succeeds end to end.

## Model

| member | source | states |
|---|---|---|
| Text.Split | src/index.ts:64 | `stdout.split(':')` never returns an empty array. No part contains the separator, and joining the parts with it gives the input back. |
| Text.JsonStringArray | src/index.ts:69-71 | `JSON.stringify(paths)` is bracketed by `[` and `]`. It is `[]` for no entries and `["<entry>"]` for one. |
| Text.SplitJoin | src/index.ts:64 | Splitting a join of separator-free parts gives exactly those parts back, so each printed `PATH` entry is one element of `paths`. |
| Text.JsonStringArrayListsElement | src/index.ts:69-71 | Every entry of an array appears, as a JSON string literal, in the array's `JSON.stringify` text. |
| Specifier.Parse | src/index.ts:13 | Every specifier `parse` accepts has a valid name, a non-empty version without `/`, and a single-line path. Its name is a prefix of the input text. |
| Specifier.ParseFormat | src/index.ts:13 | Round trip: the text `name@version[/path]` of any well-formed specifier parses back to that same name, version and path. |
| Specifier.ParseImportPath | src/index.ts:13-14 | The import path has no version. Parsing it gives back the same name and path, with `latest` as the version. |
| Specifier.ParseShape | src/index.ts:13 | The converse of the round trip. Every text `parse` accepts is the name alone, `name/path`, `name@version` or `name@version/path`, with the parts its result reports. |
| Specifier.ParseTrailingSlash | src/index.ts:13 | A lone `/` after the name is accepted: `name/` parses to version `latest` and an empty path. |
| Specifier.ParseVersionTrailingSlash | src/index.ts:13 | A lone `/` after the version is accepted: `name@version/` parses to that version and an empty path. |
| Specifier.ImportPath | src/index.ts:14 | The import path starts with the name. It is exactly the name when the path is empty, and `name + "/" + path` otherwise. |
| Specifier.NameLengthAppend | src/index.ts:13 | A valid name followed by `@`, `/` or nothing is recognised as the name, up to exactly its end. |
| Specifier.ScopedNameValid | src/index.ts:13 | A scoped name `@scope/name` is valid whenever the scope has no `/` and the name has no `@` or `/`, and neither is empty. |
| PackageManagers.GetPackageManager | src/index.ts:97-118 | The user agent decides first: a `pnpm`, `yarn` or `npm` prefix picks that manager. Next, an exec path ending in `np[xm]-cli.js` gives npm and one ending in `yarn` gives yarn. Last, a `/pnpm/`, `/.pnpm/`, `/yarn/` or `/.yarn/` directory in the main module's path decides. With no evidence the answer is npm. pnpm and yarn are named only on positive evidence. |
| PackageManagers.NoEvidenceMeansNpm | src/index.ts:117 | With none of the three variables set, the advisor answers npm. |
| PackageManagers.InstructionsInjective | src/index.ts:88-92 | Two `INSTRUCTIONS` texts are equal only for the same manager and the same target, so the remediation identifies both. |
| PackageManagers.Instructions | src/index.ts:88-92 | `INSTRUCTIONS[pm](target)` is the manager's install verb, one space, then the target and nothing else. |
| PackageManagers.InstallInstructions | src/index.ts:93-95 | The remediation is exactly the detected manager's install verb, one space, and `name@version`. It starts with the verb and a space, the rest is `name@version`, and its length is the sum of those parts. |
| Npx.MeetsMin8 | src/index.ts:49 | `semver.gte(v, '8.0.0')` holds exactly when the major version is at least 8. |
| Npx.CheckNpxVersion | src/index.ts:42-52 | Runs exactly one command, `npx --version`, without a shell. It succeeds exactly when that run completed, was not flagged failed, and reported npm 8 or later. A failed run gives the "Couldn't execute npx --version" error. A version below 8 gives the "Require npm version 8+. Got '<v>'" error with the reported text. A thrown rejection passes through. |
| Npx.NpxUnavailableText | src/index.ts:46 | The error for a failed `npx --version` is exactly "Couldn't execute npx --version. Is npm installed and up-to-date?". |
| Npx.NpxTooOldText | src/index.ts:50 | The error for an old npm is exactly "Require npm version 8+. Got '<v>' when running 'npx --version'". |
| Npx.InstallCommand | src/index.ts:55-60 | The install command's text is `npx -y -p <name>@<version> node -e 'console.log(process.env.PATH)'` and it runs through a shell. |
| Npx.InstallFailedText | src/index.ts:62 | The error for a failed install is exactly "Failed installing <name> using: npx -y -p <name>@<version>.". |
| Npx.NoTempDirText | src/index.ts:68-72 | The error for a `PATH` without a cache entry is exactly "Failed to find temporary install directory. Looking for paths matching '/.npm/_npx/' in:", a newline, and the entries as a JSON array. |
| Npx.BadLayoutText | src/index.ts:77-79 | The layout error is exactly "Found NPX temporary path of '<entry>' but expected to be able to find a node_modules directory by looking in '..'.". |
| Npx.RejectedText | src/index.ts:26-28 | A thrown rejection's message is reported unchanged as the root cause. |
| Npx.FirstInNpxCache | src/index.ts:65 | `paths.find` returns the first entry containing `/.npm/_npx/`. When it finds none, no entry contains that marker. |
| Npx.FirstInNpxCacheUnique | src/index.ts:65 | There is only one first matching entry. |
| Npx.Parent | src/index.ts:75 | `path.resolve(p, '..')`, read as dropping the last entry. A path without `/` gives `.`. Otherwise the result is a prefix of `p`, and, unless it is the root `/`, it is followed in `p` by a `/` and then a last entry without `/`. |
| Npx.ParentOfChild | src/index.ts:75 | `path.resolve(dir + "/" + leaf, '..')` is `dir` when `leaf` has no `/`. |
| Npx.LocateInstallDir | src/index.ts:64-80 | A directory is returned only if its name ends in `node_modules` and it is the parent of the first cache entry of the split `PATH`. "No temporary directory" is reported exactly when no entry is in the cache, and it always carries the full split `PATH`. A layout failure quotes that first entry, whose parent fails the suffix test. |
| Npx.LocateChild | src/index.ts:64-80 | When the first cache entry is `dir/leaf`, the result is `dir` if `dir` ends in `node_modules`, and the layout error for that entry otherwise. The test is on the text, so any name ending in `node_modules` passes. |
| Npx.NoTempDirListsEveryEntry | src/index.ts:67-72 | The "Failed to find temporary install directory" error quotes every `PATH` entry as a JSON string. |
| Npx.InstallAndReturnDir | src/index.ts:54-86 | Issues exactly one command, the shell-run install. A rejection's message passes through unchanged. A failed run gives "Failed installing <name> using: npx -y -p <name>@<version>.". A completed run yields the directory found in its output, whose name ends in `node_modules`. |
| Orchestrator.FailureMessage | src/index.ts:27-32 | The wrapped error starts with "IOD (Import On-Demand) failed for <importPath>". It contains, in order, the import path, the root cause's message verbatim, "You should install <name> locally:", and the install instructions. |
| Orchestrator.Fallback | src/index.ts:22-25 | The version probe always runs first. The install runs, once, exactly when the gate passes. The relative load runs exactly when the install produced a directory, and that directory's name ends in `node_modules`. The fallback succeeds exactly when that load succeeds, and the module returned is the one it produced. Each failing step's fault becomes the fallback's fault unchanged: the gate's, the install's, or the load's rejection. |
| Orchestrator.ImportParsed | src/index.ts:13-35 | The native import of the import path is always the first effect. A hit returns that module and performs nothing else. A miss appends the fallback's effects. After a miss the run loads a module exactly when the fallback succeeds; when the fallback fails, its fault is the run's cause. A run fails only after a miss, with the wrapped message for that cause. A module loaded after a miss comes from the fourth effect, a load from a `node_modules` directory. |
| Orchestrator.ImportOnDemand | src/index.ts:9-17 | A specifier that `parse` rejects makes the run throw before any effect. Otherwise the run is the parsed specifier's run, and its first effect is the native import of the parsed import path. |
| Orchestrator.InstallIssuedExactlyWhenGatePasses | src/index.ts:16-25 | A run issues exactly one install command when the native import missed and the gate passed, and none otherwise. |
| Orchestrator.FallbackInstallsOnce | src/index.ts:22-24 | The fallback alone issues one install command when the gate passes and none otherwise. |
| Orchestrator.FailedGateIssuesNoInstall | src/index.ts:22-23 | After a failed gate the trace is the native import and `npx --version`, and nothing else. The run fails with the gate's fault. |
| Orchestrator.InstallErrorPassesThrough | src/index.ts:22-32 | After a miss and a passed gate, an install command that throws makes the run fail, with that rejection as its cause. The rejection's message is quoted verbatim in the error, and nothing runs after the install. |
| Orchestrator.FailureNamesEverything | src/index.ts:26-32 | Every failed run's message names, in order, the import path, the root cause, the local-install advice and the remediation. The remediation ends with ` name@version`. |
| Orchestrator.OnlyProbeAndInstall | src/index.ts:42-60 | The only processes a run starts are `npx --version` and the install command for the parsed name and version. |
| Orchestrator.InstallCommandText | src/index.ts:54-60 | The third effect, when there is one, is the shell-run install command with the exact text built from the name and version. |
| Scenarios.SuiteSpecifierParts | test/testy.test.ts:27-65 | The suite's names `fake-library` and `@fake/library`, versions `1.2.3` and `beta`, and path `lib/utils.js` are all accepted by `parse`. |
| Scenarios.SuiteFailureNames | test/testy.test.ts:76-100 | The failure cases' names `no-npx-existo`, `npm-too-old` and `broken-install` are all valid package names. |
| Scenarios.ParsesBareName | src/index.ts:13-14 | A bare valid name parses to that name with version `latest` and no path, and its import path is the name itself. |
| Scenarios.LoadsNameAsIs | test/testy.test.ts:27-33 | A bare valid name found locally is imported as it is. That import is the only effect. |
| Scenarios.LoadsIgnoringVersion | test/testy.test.ts:35-49 | With a version or tag, the native import is of the name alone. |
| Scenarios.LoadsWithPath | test/testy.test.ts:51-57 | A path inside the package is passed through to the native import. |
| Scenarios.LoadsVersionAndPath | test/testy.test.ts:59-65 | With both a version and a path, the version is dropped and `name/path` is imported. |
| Scenarios.FailsWithoutNpx | test/testy.test.ts:73-80 | When `npx --version` fails, the trace stops after that probe. The error contains "Couldn't execute npx --version. Is npm installed and up-to-date?". |
| Scenarios.FailsWithOldNpx | test/testy.test.ts:82-89 | When npx reports `7.1.2`, the run stops after the probe. The error contains "Require npm version 8+. Got '7.1.2' when running 'npx --version'". |
| Scenarios.PassesInstallErrorThrough | test/testy.test.ts:91-106 | With npx 8.1.2, pnpm detected, and an install that throws "EXPLODED TRYING TO INSTALL", the third effect is the shell-run `npx -y -p <name>@latest ...`. The error contains, in order, the thrown message, "You should install <name> locally:" and "pnpm add -D <name>@latest". |
| Scenarios.InstallCommandForLatest | test/testy.test.ts:93-96 | Without a version, the install command asks npx for `<name>@latest`, through a shell. |
| Scenarios.PnpmInstructionsForLatest | test/testy.test.ts:104 | Under pnpm, the remediation for an unversioned specifier is `pnpm add -D <name>@latest`. |
| Scenarios.MessageAfterName | src/index.ts:27-32 | A failed run's message holds, after the import path, the cause's message, the local-install hint and the remediation, in that order. |
| Scenarios.CacheDirShape | src/index.ts:65-76 | A directory `<home>/.npm/_npx/<hash>/node_modules` is inside npx's cache and passes the `node_modules` suffix test. |
| Scenarios.LocatesFromPrintedPath | src/index.ts:64-80 | When the printed `PATH` joins separator-free entries and its first cache entry is `dir/leaf`, the install directory is `dir` if `dir` ends in `node_modules`, and the layout error otherwise. |
| Scenarios.FallbackLoads | src/index.ts:22-25 | Three conditions together make the fallback return the module after exactly three effects: a passed gate, an install that yields `dir`, and a successful load from `dir`. |
| Scenarios.InstallsAndLoads | src/index.ts:13-25 | After a local miss and a passed gate, consider an install whose printed `PATH` has `dir/leaf` as its first cache entry, with `dir` ending in `node_modules`, and a load that succeeds from `dir`. The run returns that module. Its trace is exactly the native import, the probe, the install and the load. |

## Left out

- Logging (the `logger` parameter and `console.log` at `src/index.ts` lines 11, 15, 19-21, 56 and 82-83) is not modelled, assuming the logger returns normally. A logger that throws at lines 19-21 would escape unwrapped, and one that throws at 56 or 82-83 would become the wrapped root cause, at 82-83 even after a successful install; the model does not cover either.
- `async`/`await` is not modelled. Each awaited call is an effect recorded in the trace, in program order.
- `importOnDemandMulti` is a commented-out stub, so there is nothing to model.
- `src/utils.ts` is not part of this model. `execaCommand`, `nativeDynamicImport` and `createRequire` are oracle functions of `Host.World`, and `execaCommand`'s option handling is reduced to the `shell` flag.
- `semver` parsing is the oracle `readVersion`. A malformed version string, which makes `semver.gte` throw, is not modelled, and `Npx.MeetsMin8` compares only major, minor and patch. Prerelease tags are not modelled.
- Npx.Parent: `path.resolve(p, '..')` is modelled as dropping the last `/`-separated entry. This is exact only for absolute paths without `.` or `..` entries, without empty entries (`//`), and without a trailing `/`. For example, `path.resolve('/a//b', '..')` is `/a`, while `Parent("/a//b")` is `/a/`. Normalisation and resolution against the working directory are not modelled.
- Specifier.Parse: parse-package-name is not part of this model. `Parse` reconstructs its accepting regular expressions, and it reports rejection as `None` rather than with the library's error message. That error is thrown outside the `try`, so it is never wrapped. `Orchestrator.Outcome.Unparsable` stands for it. The library's path group `(/.*)` captures the leading `/`. `Parse` assumes the library returns the path without that `/`. The assumption comes from the test vectors (`test/testy.test.ts` lines 51-65 expect `fake-library/lib/utils.js` from the `/`-join at `src/index.ts` line 14). If the library returned the group as captured, the source would import `fake-library//lib/utils.js`, and the model would not show it.
- Text.EscapeChar: lone UTF-16 surrogates are not escaped. Dafny's `char` is a Unicode scalar value, so they cannot occur.
- Scenarios: the suite's literal specifiers (`fake-library@1.2.3/lib/utils.js` and the others) are stated for every valid name, version and path of the same shape. `Scenarios.SuiteSpecifierParts` and `Scenarios.SuiteFailureNames` show that the literal parts have that shape.
- `test/run.js`, `test/go.js` and `test/utils.ts` are test scaffolding and are not part of this model.
