/** The data model of the post-install resolver: the manifest read from
    `package.json`, the runtime facts the resolver consults, and the
    values the resolution steps produce. */
module Types {

  datatype Option<+T> = None | Some(value: T)

  /** The fatal errors of a run; each aborts the whole installation. */
  datatype Error =
    | MissingResources            // `resources` section absent
    | FilesNotIterable            // `resources.files` absent
    | UnresolvableVariable(variable: string)
    | UnsupportedProtocol         // host is neither github_artifact:// nor http(s)://
    | MalformedArtifactUrl        // github_artifact:// host the pattern does not decode
    | ArtifactNotFound(artifact: string)

  datatype Result<+T> = Ok(value: T) | Err(error: Error)

  /** Non-fatal diagnostics shown to the user. */
  datatype Warning = UnknownConstraint(constraint: string) | UnknownValue

  /** A result together with the warnings emitted while computing it, in order. */
  datatype Logged<+T> = Logged(result: T, warnings: seq<Warning>)

  /** What the process knows about the machine it runs on: `process.platform`,
      `process.arch`, the family `detectLibc()` reports, and the shared
      libraries `libraryExists` would find. */
  datatype Facts = Facts(platform: string, arch: string, libc: string, libraries: set<string>)

  /** One entry of a `constraints` object: its key and the list it is tested against. */
  datatype Constraint = Constraint(name: string, details: seq<string>)

  /** The `value` directive of a variable, by shape:
      `["libpython", versions]`, the literal `"libc"`, or anything else. */
  datatype ValueDirective = Libpython(versions: seq<string>) | Libc | Unknown

  /** A variable of `resources.vars`; an absent or falsy `value` is `None`. */
  datatype VariableSpec = VariableSpec(
    constraints: seq<Constraint>,
    value: Option<ValueDirective>,
    default: Option<string>)

  datatype Variable = Variable(name: string, spec: VariableSpec)

  /** The closure `resolveVars` builds for one variable: it replaces the
      first `${name}` of a string with `value`. */
  datatype Substituter = Substituter(name: string, value: string)

  datatype FileSpec = FileSpec(host: string, path: string, name: string, constraints: seq<Constraint>)

  /** An artifact of the current workflow run; `archiveUrl` is the address
      the artifact-download endpoint hands back for it. */
  datatype Artifact = Artifact(id: nat, name: string, archiveUrl: string)

  /** The continuous-integration service as the resolver sees it: for each
      `github_artifact://` host the address pattern decodes, the artifacts
      the current run of that repository lists. A host absent from the map
      is one the pattern does not decode. */
  datatype CiRun = CiRun(listing: map<string, seq<Artifact>>)

  /** Where to download a file from, and the name to report it under. */
  datatype Located = Located(url: string, name: string)

  /** `resources`: an absent `vars` is the empty list. */
  datatype Resources = Resources(vars: seq<Variable>, files: Option<seq<FileSpec>>)

  datatype Manifest = Manifest(version: string, resources: Option<Resources>)

  /** What a run shows and does, in order. */
  datatype Event =
    | Warned(warning: Warning)
    | Downloaded(url: string, name: string)
    | Skipped(name: string)

  /** A run: everything that happened, and the error that stopped it, if any. */
  datatype Outcome = Outcome(trace: seq<Event>, error: Option<Error>)
}
