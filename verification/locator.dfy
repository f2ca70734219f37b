/** Locating a file: a plain download address, or an artifact of the
    current continuous-integration run. */
module Locator {
  import opened Types
  import opened Text
  import opened Paths

  const ArtifactScheme: string := "github_artifact://"
  const HttpScheme: string := "http://"
  const HttpsScheme: string := "https://"

  /** The index of the first artifact called `name` (`Array.prototype.find`). */
  function FindArtifact(artifacts: seq<Artifact>, name: string): (k: Option<nat>)
    ensures k.Some? ==> k.value < |artifacts| && artifacts[k.value].name == name
    ensures k.Some? ==> forall j | 0 <= j < k.value :: artifacts[j].name != name
    ensures k.None? <==> forall j | 0 <= j < |artifacts| :: artifacts[j].name != name
    decreases |artifacts|
  {
    if artifacts == [] then None
    else if artifacts[0].name == name then Some(0)
    else match FindArtifact(artifacts[1..], name)
      case None => None
      case Some(k) => Some(k + 1)
  }

  /** `resolveGithubArtifactPath`: decode the host, list the artifacts of
      the run, substitute the file's name template and take the first
      artifact of that name; the download address is that artifact's
      archive, the name the substituted one. */
  function ResolveGithubArtifactPath(host: string, name: string, version: string, facts: Facts,
                                     vars: seq<Substituter>, ci: CiRun): (r: Result<Located>)
    ensures host !in ci.listing ==> r == Err(MalformedArtifactUrl)
    ensures host in ci.listing ==>
              var wanted := SimplePath(name, version, facts, vars);
              var artifacts := ci.listing[host];
              && (r.Ok? <==> exists a | a in artifacts :: a.name == wanted)
              && (r.Err? ==> r.error == ArtifactNotFound(wanted))
              && (r.Ok? ==> r.value.name == wanted)
              && (r.Ok? ==> exists k | 0 <= k < |artifacts| ::
                    && artifacts[k].name == wanted
                    && r.value.url == artifacts[k].archiveUrl
                    && forall j | 0 <= j < k :: artifacts[j].name != wanted)
  {
    if host !in ci.listing then Err(MalformedArtifactUrl)
    else
      var artifacts := ci.listing[host];
      var wanted := SimplePath(name, version, facts, vars);
      match FindArtifact(artifacts, wanted)
      case None => Err(ArtifactNotFound(wanted))
      case Some(k) => Ok(Located(artifacts[k].archiveUrl, wanted))
  }

  /** `resolvePath`: dispatch on the host's scheme. A plain address is the
      host and path joined and substituted, and is its own name; a host of
      any other scheme is an error. */
  function ResolvePath(file: FileSpec, version: string, facts: Facts, vars: seq<Substituter>, ci: CiRun): (r: Result<Located>)
    ensures StartsWith(file.host, ArtifactScheme) ==>
              r == ResolveGithubArtifactPath(file.host, file.name, version, facts, vars, ci)
    ensures !StartsWith(file.host, ArtifactScheme) && (StartsWith(file.host, HttpScheme) || StartsWith(file.host, HttpsScheme)) ==>
              r.Ok? && r.value.url == r.value.name == SimplePath(file.host + file.path, version, facts, vars)
    ensures r.Err? && r.error == UnsupportedProtocol <==>
              !StartsWith(file.host, ArtifactScheme) && !StartsWith(file.host, HttpScheme) && !StartsWith(file.host, HttpsScheme)
  {
    if StartsWith(file.host, ArtifactScheme) then
      ResolveGithubArtifactPath(file.host, file.name, version, facts, vars, ci)
    else if StartsWith(file.host, HttpScheme) || StartsWith(file.host, HttpsScheme) then
      var url := SimplePath(file.host + file.path, version, facts, vars);
      Ok(Located(url, url))
    else
      Err(UnsupportedProtocol)
  }
}
