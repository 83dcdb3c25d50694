/**
 * Puc_v4_GitHub_UpdateChecker: the GitHub-releases source of the bundled
 * update checker. It turns a repository URL into owner and repository
 * names, fetches and caches the latest release, and converts it into the
 * update and details records WordPress expects.
 */
module GitHubChecker {
  import opened Base
  import opened Transients
  import opened RepositoryUrl

  // ---------------------------------------------------------------------------
  // getLatestRelease
  // ---------------------------------------------------------------------------

  /** The fields of a GitHub release the checker reads; `body` may be absent. */
  datatype Release = Release(tagName: string, htmlUrl: string, zipballUrl: string, body: Option<string>)

  /**
   * `json_decode` of a 200 reply: an object (a release), the literal
   * `false`, or anything else (array, scalar, null, undecodable).
   */
  datatype Decoded = ReleaseObject(release: Release) | DecodedFalse | NotObject

  /** What `wp_remote_get` gave back for the release URL. */
  datatype GhReply = GhTransportError | GhHttp(status: int, decoded: Decoded)

  /**
   * The host environment of the checker: the clock, `md5`, the
   * `version_compare($a, $b, '<=')` test, `plugin_basename`, and the
   * installed version read from the plugin header ("" when absent).
   */
  datatype GhEnv = GhEnv(now: int, md5: string -> string, atMost: (string, string) -> bool,
                         pluginBasename: string -> string, installedVersion: string)

  const ReleaseTtl: nat := 6 * 3600

  function ReleaseKey(env: GhEnv, c: Coords): string {
    "puc_gh_release_" + env.md5(c.username + "/" + c.repository)
  }

  function ReleaseUrl(c: Coords): string {
    "https://api.github.com/repos/" + c.username + "/" + c.repository + "/releases/latest"
  }

  /** The checker's settings: plugin file, repository URL, branch and the parsed coordinates. */
  datatype Checker = Checker(pluginFile: string, optionName: string, repositoryUrl: string, branch: string,
                             coords: Coords)

  /** The result of an operation that may consult GitHub: value, release cache after, URL requested if any. */
  datatype GhOutcome<T> = GhOutcome(result: T, cache: Store<Decoded>, sent: Option<string>)

  predicate HasCoords(c: Coords) {
    !PhpEmpty(c.username) && !PhpEmpty(c.repository)
  }

  /** A stored `false` reads as a miss, exactly like an absent entry. */
  predicate ReleaseHit(cache: Store<Decoded>, env: GhEnv, c: Coords) {
    var got := Get(cache, ReleaseKey(env, c), env.now);
    got.Some? && got.value != DecodedFalse
  }

  function ObjectOnly(d: Decoded): Option<Release> {
    if d.ReleaseObject? then Some(d.release) else None
  }

  function GetLatestRelease(cache: Store<Decoded>, env: GhEnv, c: Coords, fetch: string -> GhReply)
    : (o: GhOutcome<Option<Release>>)
    // without both names nothing is read, written or requested
    ensures !HasCoords(c) ==> o == GhOutcome(None, cache, None)
    ensures HasCoords(c) ==> (o.sent.None? <==> ReleaseHit(cache, env, c))
    ensures HasCoords(c) && ReleaseHit(cache, env, c) ==>
              o.cache == cache && o.result == ObjectOnly(Get(cache, ReleaseKey(env, c), env.now).value)
    ensures o.sent.Some? ==> o.sent.value == ReleaseUrl(c)
    // a failed request caches nothing
    ensures o.sent.Some? && (fetch(ReleaseUrl(c)).GhTransportError? || fetch(ReleaseUrl(c)).status != 200) ==>
              o.result.None? && o.cache == cache
    // a 200 reply is cached for six hours whatever it decodes to; only an object is a release
    ensures o.sent.Some? && fetch(ReleaseUrl(c)).GhHttp? && fetch(ReleaseUrl(c)).status == 200 ==>
              o.cache == Set(cache, ReleaseKey(env, c), fetch(ReleaseUrl(c)).decoded, ReleaseTtl, env.now) &&
              o.result == ObjectOnly(fetch(ReleaseUrl(c)).decoded)
  {
    if PhpEmpty(c.username) || PhpEmpty(c.repository) then GhOutcome(None, cache, None)
    else
      var key := ReleaseKey(env, c);
      var got := Get(cache, key, env.now);
      if got.Some? && got.value != DecodedFalse then GhOutcome(ObjectOnly(got.value), cache, None)
      else
        var url := ReleaseUrl(c);
        match fetch(url)
        case GhTransportError => GhOutcome(None, cache, Some(url))
        case GhHttp(status, decoded) =>
          if status != 200 then GhOutcome(None, cache, Some(url))
          else GhOutcome(ObjectOnly(decoded), Set(cache, key, decoded, ReleaseTtl, env.now), Some(url))
  }

  /** A release fetched once is served from the cache, without a request, for the next six hours. */
  lemma ReleaseServedFromCache(cache: Store<Decoded>, env: GhEnv, c: Coords, fetch: string -> GhReply,
                               later: int, fetch2: string -> GhReply)
    requires GetLatestRelease(cache, env, c, fetch).sent.Some?
    requires GetLatestRelease(cache, env, c, fetch).result.Some?
    requires env.now <= later < env.now + ReleaseTtl
    ensures var o := GetLatestRelease(cache, env, c, fetch);
      var o2 := GetLatestRelease(o.cache, env.(now := later), c, fetch2);
      o2.sent.None? && o2.result == o.result
  {
    assert ReleaseKey(env.(now := later), c) == ReleaseKey(env, c);
  }

  /** A reply that decodes to `false` is cached, but the cached `false` never spares the next request. */
  lemma DecodedFalseRefetched(cache: Store<Decoded>, env: GhEnv, c: Coords, fetch: string -> GhReply,
                              later: int, fetch2: string -> GhReply)
    requires HasCoords(c)
    requires fetch(ReleaseUrl(c)) == GhHttp(200, DecodedFalse)
    requires !ReleaseHit(cache, env, c)
    ensures var o := GetLatestRelease(cache, env, c, fetch);
      o.result.None? && GetLatestRelease(o.cache, env.(now := later), c, fetch2).sent == Some(ReleaseUrl(c))
  {
    assert ReleaseKey(env.(now := later), c) == ReleaseKey(env, c);
  }

  // ---------------------------------------------------------------------------
  // requestUpdate / requestInfo
  // ---------------------------------------------------------------------------

  /** The plugin's slug: the name of the directory holding the main file. */
  function PluginSlug(pluginFile: string): string {
    Basename(Dirname(pluginFile))
  }

  /** `ltrim($tag, 'v')`: every leading 'v' goes. */
  function VersionOfTag(tag: string): (v: string)
    ensures |v| > 0 ==> v[0] != 'v'
    ensures EndsWith(tag, v)
  {
    LTrimChar(tag, 'v')
  }

  /** "1.2", "v1.2" and "vvv1.2" are one version. */
  lemma VersionOfTagIgnoresPrefix(n: nat, version: string)
    requires |version| == 0 || version[0] != 'v'
    ensures VersionOfTag(Repeat('v', n) + version) == version
  {
    LTrimCharPadded('v', n, version);
  }

  /** The update record WordPress stores under `response[pluginFile]`. */
  datatype Update = Update(slug: string, plugin: string, newVersion: string, url: string, package: string)

  function RequestUpdate(cache: Store<Decoded>, env: GhEnv, ck: Checker, fetch: string -> GhReply)
    : (o: GhOutcome<Option<Update>>)
    ensures var rel := GetLatestRelease(cache, env, ck.coords, fetch);
      && o.cache == rel.cache && o.sent == rel.sent
      && (rel.result.None? ==> o.result.None?)
      // only a strictly newer release is offered
      && (rel.result.Some? ==>
            (o.result.Some? <==> !env.atMost(VersionOfTag(rel.result.value.tagName), env.installedVersion)))
      && (o.result.Some? ==>
            o.result.value == Update(PluginSlug(ck.pluginFile), env.pluginBasename(ck.pluginFile),
                                     VersionOfTag(rel.result.value.tagName),
                                     rel.result.value.htmlUrl, rel.result.value.zipballUrl))
  {
    var rel := GetLatestRelease(cache, env, ck.coords, fetch);
    match rel.result
    case None => GhOutcome(None, rel.cache, rel.sent)
    case Some(r) =>
      var latest := VersionOfTag(r.tagName);
      if env.atMost(latest, env.installedVersion) then GhOutcome(None, rel.cache, rel.sent)
      else
        GhOutcome(Some(Update(PluginSlug(ck.pluginFile), env.pluginBasename(ck.pluginFile), latest,
                              r.htmlUrl, r.zipballUrl)), rel.cache, rel.sent)
  }

  /** The details record shown in the "View details" window. */
  datatype Info = Info(name: string, slug: string, version: string, homepage: string, downloadUrl: string,
                       description: string)

  const DefaultReleaseDescription := "GitHub release"

  function RequestInfo(cache: Store<Decoded>, env: GhEnv, ck: Checker, fetch: string -> GhReply)
    : (o: GhOutcome<Option<Info>>)
    ensures var rel := GetLatestRelease(cache, env, ck.coords, fetch);
      && o.cache == rel.cache && o.sent == rel.sent
      && (o.result.Some? <==> rel.result.Some?)
      && (o.result.Some? ==>
            var r := rel.result.value;
            && o.result.value.name == PluginSlug(ck.pluginFile)
            && o.result.value.slug == PluginSlug(ck.pluginFile)
            && o.result.value.version == VersionOfTag(r.tagName)
            && o.result.value.homepage == r.htmlUrl
            && o.result.value.downloadUrl == r.zipballUrl
            // the release notes, or a fixed text when the release has none
            && o.result.value.description == r.body.GetOr(DefaultReleaseDescription))
  {
    var rel := GetLatestRelease(cache, env, ck.coords, fetch);
    match rel.result
    case None => GhOutcome(None, rel.cache, rel.sent)
    case Some(r) =>
      var slug := PluginSlug(ck.pluginFile);
      var description := match r.body case Some(b) => b case None => DefaultReleaseDescription;
      GhOutcome(Some(Info(slug, slug, VersionOfTag(r.tagName), r.htmlUrl, r.zipballUrl, description)),
                rel.cache, rel.sent)
  }

  // ---------------------------------------------------------------------------
  // Construction
  // ---------------------------------------------------------------------------

  /** The option the checker keeps its state under: "external_updates-" and the plugin's slug. */
  function OptionName(pluginFile: string): (name: string)
    ensures StartsWith(name, "external_updates-")
  {
    "external_updates-" + PluginSlug(pluginFile)
  }

  /** A plugin at `root/dir/file` has slug `dir` and option name "external_updates-dir". */
  lemma OptionNameOfPluginPath(root: string, dir: string, file: string)
    requires root != "" && dir != "" && '/' !in dir && '/' !in file
    ensures PluginSlug(root + "/" + dir + "/" + file) == dir
    ensures OptionName(root + "/" + dir + "/" + file) == "external_updates-" + dir
  {
    PathSplit(root + "/" + dir, file);
    PathSplit(root, dir);
  }

  /** The constructor: stores the settings and parses the URL. */
  function NewChecker(repositoryUrl: string, pluginFile: string, branch: string): (ck: Checker)
    ensures ck.coords == ParseRepositoryUrl(repositoryUrl)
    ensures ck.optionName == OptionName(pluginFile)
    ensures ck.pluginFile == pluginFile && ck.repositoryUrl == repositoryUrl && ck.branch == branch
  {
    Checker(pluginFile, OptionName(pluginFile), repositoryUrl, branch, ParseRepositoryUrl(repositoryUrl))
  }
}
