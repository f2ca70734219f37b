# Native post-installer: manifest resolution, modelled in Dafny

The post-installer runs when a package that ships a native binary is installed.
It reads the `resources` section of the package's manifest and resolves each
variable (the libpython version installed, the libc family) against the
machine it runs on. Then it walks the files in manifest order. For each file
it builds a download address from a template and checks the file's
`platform` / `arch` / `platform-arch` constraints. It downloads the file when
they pass and reports a skip when they do not. It can also take a file from an
artifact of the current GitHub Actions run. Any error aborts the whole run.

This project models that resolution engine in `src/index.ts`:

- `types.dfy`: the data model. It holds the manifest, the runtime facts
  (`process.platform`, `process.arch`, the `detectLibc()` family and the
  installed libraries), the value directive
  `Libpython(versions) | Libc | Unknown`, substituters, artifacts, errors,
  warnings and the trace of a run.
- `text.dfy`: JavaScript's `startsWith`, `indexOf` and `String.replace` with a
  string pattern. `replace` changes the first occurrence only. Its
  replacement patterns `$$`, `$&`, `` $` `` and `$'` are expanded the way
  ECMAScript's GetSubstitution does.
- `constraints.dfy`: `resolveConstraint` as a function and `resolveConstraints`
  as a method. The method's loop clears a flag and breaks at the first
  failure. `CheckSection` is its specification.
- `variables.dfy`: `resolveLibc`, `resolveVariableValue` (a method whose loop
  returns early) and `resolveVars` (a method whose loop pushes one substituter
  per variable). The specifications are `ValueOf`, `ResolveVar` and
  `ResolveAll`.
- `paths.dfy`: `resolveSimplePath` as a method that reassigns the path step by
  step. Its specification is `SimplePath`: the four built-in placeholders, then
  the variables, each substituted at its first occurrence only.
- `locator.dfy`: `resolvePath` and `resolveGithubArtifactPath` as functions.
  They choose a branch by scheme and take the first artifact with the
  substituted name.
- `driver.dfy`: the top-level `async` routine. It is the method `Install` with
  its loop over files in `InstallFiles`. Its specification is the function
  `Run`, whose result is the trace of warnings, downloads and skips plus the
  error that stopped the run.

Warnings (`displayCLIWarning`) are kept in the trace, in order. This makes it
observable that section evaluation stops at the first failing constraint. The
process facts, the library lookup and the CI service are inputs. `CiRun` maps
each `github_artifact://` host that the address pattern decodes to the artifact
list of the run. A host that is not in the map is one the pattern does not
decode.

## Model

| member | source | states |
|---|---|---|
| `Constraints.ResolveConstraint` | src/index.ts:27-43 | `platform`, `arch` and `platform-arch` pass iff the platform, the arch or `platform-arch` is in the list, with no warning; any other name warns and fails, whatever the list |
| `Constraints.FirstFailure` | src/index.ts:74-81 | finds the first constraint of a section that fails: all before it hold; `None` iff all hold |
| `Constraints.CheckSectionMeaning` | src/index.ts:70-85 | a section passes iff every constraint holds (so an empty section passes); the only warning is that of the first failing constraint, because later ones are never evaluated |
| `Constraints.ResolveConstraints` | src/index.ts:70-85 | the flag-and-break loop returns exactly `CheckSection`'s verdict and warnings, and passes iff every constraint holds |
| `Variables.ResolveLibc` | src/index.ts:123-129 | `glibc` iff Linux with a `gnu` libc, `musl` iff Linux with another libc, `unknown` iff not Linux |
| `Variables.FirstInstalled` | src/index.ts:49-57 | gives the index of the first version whose `libpython<version>` is installed, with none installed before it; `None` iff none is installed |
| `Variables.ValueOfMeaning` | src/index.ts:45-68 | libpython: the first version in list order whose library is installed, nothing iff none is, and no warning; `"libc"`: `resolveLibc()` with no warning; anything else: nothing, and one warning |
| `Variables.ResolveVariableValue` | src/index.ts:45-68 | the loop that returns at the first installed version gives exactly `ValueOf`'s value and warnings; a libpython result is one of the listed versions and is installed, and nothing comes back only when no listed version is installed |
| `Variables.ResolveVarMeaning` | src/index.ts:90-109 | constraints that fail give the default, or the unresolvable-variable error without one, and only the constraints' warnings (the value is not probed); an error means there is no default; a value that is not the default is non-empty and came from a probe that ran after the constraints passed; conversely, when the constraints pass and the probe gives a non-empty value, that value is the variable's value, with or without a default |
| `Variables.ResolveAllSucceeds` | src/index.ts:87-121 | resolving the variables succeeds iff every variable resolves |
| `Variables.ResolveAllSubstituters` | src/index.ts:87-121 | on success there is exactly one substituter per variable, in entry order, bound to that variable's name and resolved value |
| `Variables.ResolveAllFirstError` | src/index.ts:103-108 | on failure the error is that of the first variable that does not resolve, and all before it resolved |
| `Variables.ResolveVars` | src/index.ts:87-121 | the push loop returns exactly `ResolveAll`'s substituters or error, with its warnings |
| `Text.IndexOf` | src/index.ts:113 | gives the first index at which the pattern occurs; `None` iff it does not occur |
| `Text.ReplaceFirst` | src/index.ts:113 | a string without the pattern is returned unchanged; otherwise only the first occurrence is replaced, by the expanded replacement text, and everything around it is kept |
| `Text.ExpandPatterns` | src/index.ts:135-138 | the replacement text is expanded pattern by pattern: `$$` gives `$`, `$&` the matched text, `` $` `` the text before the match, `$'` the text after it; every other `$` and every other character is kept as it is |
| `Text.ExpandPlain` | src/index.ts:113 | a replacement text without `$` is inserted verbatim |
| `Text.ReplaceFirstPlain` | src/index.ts:113 | with a `$`-free value, the first occurrence is swapped for the value and the rest of the string is kept |
| `Text.LaterOccurrenceSurvives` | src/index.ts:113 | a later second occurrence of the pattern is still in the result, shifted by the change in length |
| `Paths.Substitute` | src/index.ts:112-115 | a variable's substituter leaves a string without `${name}` unchanged |
| `Paths.SubstitutePlain` | src/index.ts:112-115 | with a value that has no `$`, the substituter replaces only the first `${name}` by the value and keeps the rest of the string |
| `Paths.RepeatedTokenPartlySubstituted` | src/index.ts:112-115 | a placeholder written twice is replaced only once: its second copy remains |
| `Paths.ApplyAllConcat` | src/index.ts:140-142 | applying two lists of substituters one after the other is the same as applying their concatenation |
| `Paths.BuiltinsInOrder` | src/index.ts:135-138 | the built-in placeholders are replaced in the order `${version}`, `${platform}`, `${arch}`, `${libc}`, with the manifest version, platform, arch and libc family |
| `Paths.ResolveSimplePath` | src/index.ts:134-145 | the step-by-step reassignment yields the built-ins substituted first, then each variable substituter in list order |
| `Paths.NoPlaceholderUnchanged` | src/index.ts:134-145 | a template with no `${` comes back unchanged through any substituters |
| `Locator.FindArtifact` | src/index.ts:174-176 | gives the index of the first artifact with the wanted name; `None` iff there is no such artifact |
| `Locator.ResolveGithubArtifactPath` | src/index.ts:147-192 | a host the pattern does not decode is a malformed-address error; otherwise it succeeds iff an artifact has the substituted name, and then the address is the archive of the first such artifact and the name is the substituted name; a failure is `ArtifactNotFound` of that name |
| `Locator.ResolvePath` | src/index.ts:194-214 | `github_artifact://` hosts go to the artifact lookup; an `http://` or `https://` host gives the substituted `host + path` as both address and name; any other host is the unsupported-protocol error, and only such a host is |
| `Driver.FileStep` | src/index.ts:227-241 | a file that cannot be located stops the run with that error, whatever its constraints; a located file is downloaded iff its constraints pass, otherwise skipped under the same name, with the constraints' warnings |
| `Driver.Run` | src/index.ts:216-247 | a missing `resources` section aborts with nothing shown; an unresolvable variable aborts with only the variables' warnings, before any file; a run without error had resources and files |
| `Driver.InstallFiles` | src/index.ts:226-242 | the loop over files produces exactly the trace and error of the specification of the loop over files |
| `Driver.Install` | src/index.ts:216-247 | the routine produces exactly `Run`'s trace and error |
| `Driver.RunFilesInOrder` | src/index.ts:226-242 | files are decided in manifest order; the i-th download or skip is the i-th file's decision |
| `Driver.RunFilesStopsAtFirstFailure` | src/index.ts:226-247 | a run without error decides every file; a failing run stops at the first file that cannot be located, after the decisions (and downloads) of all files before it, which are not undone |
| `Driver.RunDecisions` | src/index.ts:218-226 | nothing is downloaded or skipped unless resources, all variables and the file list are there; otherwise the decisions and error are those of the loop over files |
| `Driver.PlatformGatedFile` | src/index.ts:200-241 | an `http://` or `https://` file behind a `platform` constraint is downloaded from the substituted address on a listed platform and skipped under that same address elsewhere, with no warning |

## Left out

- The GitHub API calls (`listWorkflowRunArtifacts`, `downloadArtifact`) and the `GH_TOKEN` / `GITHUB_RUN_ID` reads are network I/O. The artifact list of the run is an input (`CiRun`). The archive address the download endpoint returns is a field of each artifact. Failures of those calls are not modelled.
- The regular expression that decodes `github_artifact://owner/repo/actions/workflow` is not modelled. Whether a host decodes is part of the `CiRun` input: the host is in its map or it is not.
- Reading and parsing `package.json` is file I/O and a foreign parser. The manifest is a Dafny value. An absent `vars` is the empty list. An absent or falsy `value` is `None`.
- `downloadAndExtractFile` is not modelled. A download is the `Downloaded` event, and transport or extraction failures of that collaborator are not modelled.
- The text printed by `console.log` and `displayCLIWarning`, the rendering by `displayCLIError`, and `process.exit(1)` are output. They appear only as trace events and as the run's error.
- Error messages are not modelled, only which error occurs.
- The `async`/`await` structure is not modelled: execution is strictly sequential.
- JSON values of other types are not modelled: a constraint list that is a string (where `includes` would test for a substring), non-string versions or defaults, and a `versions` entry that is not iterable.
- Missing manifest fields are not modelled: the package version and every field of a file are plain strings. In the source an absent `version` puts `"undefined"` in the path, an absent `path` on an `http(s)://` host appends `"undefined"`, and an absent `name` on a `github_artifact://` host or an absent `host` throws a `TypeError`.
- Strings are sequences of Unicode scalar values, while JavaScript strings are sequences of UTF-16 code units. Matching and replacement agree on well-formed text. A lone surrogate (which a JSON `\uD800` escape can produce) cannot be represented, and the offsets in `Text.LaterOccurrenceSurvives` and `Paths.RepeatedTokenPartlySubstituted` count code points, not code units.
- The order of `Object.entries` is taken as the given order of the `vars` and `constraints` sequences. JavaScript's rule that integer-like keys come first is not modelled.
