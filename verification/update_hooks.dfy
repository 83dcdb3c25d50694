/**
 * The two WordPress filters of Puc_v4_UpdateChecker: `checkForUpdates` on
 * the update_plugins transient and `injectInfo` on `plugins_api`.
 */
module UpdateHooks {
  import opened Base
  import opened Transients
  import opened GitHubChecker

  /**
   * The update list WordPress passes through the filter: the `response`
   * map from plugin file to update record, and the other properties.
   */
  datatype UpdateList = UpdateList(response: map<string, Update>, other: map<string, string>)

  /** The filter's argument: an object, or anything else (false, null, an array). */
  datatype UpdatesArg = NoList | Object(list: UpdateList)

  const EmptyUpdateList := UpdateList(map[], map[])

  function CheckForUpdates(cache: Store<Decoded>, env: GhEnv, ck: Checker, updates: UpdatesArg,
                           fetch: string -> GhReply)
    : (o: GhOutcome<UpdateList>)
    ensures var u := RequestUpdate(cache, env, ck, fetch);
      && o.cache == u.cache && o.sent == u.sent
      // a non-object becomes an empty object before anything is added
      && var base := if updates.Object? then updates.list else EmptyUpdateList;
      && (u.result.None? ==> o.result == base)
      && (u.result.Some? ==>
            && o.result.response == base.response[ck.pluginFile := u.result.value]
            && o.result.other == base.other)
  {
    var base := match updates case Object(list) => list case NoList => EmptyUpdateList;
    var u := RequestUpdate(cache, env, ck, fetch);
    match u.result
    case None => GhOutcome(base, u.cache, u.sent)
    case Some(info) => GhOutcome(base.(response := base.response[ck.pluginFile := info]), u.cache, u.sent)
  }

  /** Only this plugin's entry can change; every other plugin's pending update is kept. */
  lemma CheckForUpdatesKeepsOthers(cache: Store<Decoded>, env: GhEnv, ck: Checker, list: UpdateList,
                                   fetch: string -> GhReply, file: string)
    requires file != ck.pluginFile
    ensures var o := CheckForUpdates(cache, env, ck, Object(list), fetch);
      && (file in o.result.response <==> file in list.response)
      && (file in list.response ==> o.result.response[file] == list.response[file])
      && o.result.other == list.other
  {
  }

  /** An entry appears for this plugin exactly when the latest release is newer than the installed one. */
  lemma CheckForUpdatesOffersNewerOnly(cache: Store<Decoded>, env: GhEnv, ck: Checker,
                                       fetch: string -> GhReply)
    requires GetLatestRelease(cache, env, ck.coords, fetch).result.Some?
    ensures var rel := GetLatestRelease(cache, env, ck.coords, fetch).result.value;
      var o := CheckForUpdates(cache, env, ck, NoList, fetch);
      && (ck.pluginFile in o.result.response <==> !env.atMost(VersionOfTag(rel.tagName), env.installedVersion))
      && (ck.pluginFile in o.result.response ==> o.result.response[ck.pluginFile].newVersion == VersionOfTag(rel.tagName))
  {
  }

  /** The `$args` of `plugins_api`: its `slug`, absent when unset or null. */
  datatype ApiArgs = ApiArgs(slug: Option<string>)

  /** What the filter returns: the incoming `$result` untouched, or this plugin's details. */
  datatype ApiAnswer<R> = Passthrough(result: R) | Injected(info: Info)

  const PluginInformation := "plugin_information"

  /** The request is a details request for this very plugin. */
  predicate AsksForThisPlugin(ck: Checker, action: string, args: ApiArgs) {
    action == PluginInformation && args.slug.Some? && args.slug.value == PluginSlug(ck.pluginFile)
  }

  function InjectInfo<R>(cache: Store<Decoded>, env: GhEnv, ck: Checker, result: R, action: string, args: ApiArgs,
                         fetch: string -> GhReply)
    : (o: GhOutcome<ApiAnswer<R>>)
    // any other request passes through without touching the cache or GitHub
    ensures !AsksForThisPlugin(ck, action, args) ==> o == GhOutcome(Passthrough(result), cache, None)
    ensures AsksForThisPlugin(ck, action, args) ==>
      var i := RequestInfo(cache, env, ck, fetch);
      && o.cache == i.cache && o.sent == i.sent
      && (i.result.Some? ==> o.result == Injected(i.result.value))
      && (i.result.None? ==> o.result == Passthrough(result))
  {
    if action != PluginInformation || args.slug.None? then GhOutcome(Passthrough(result), cache, None)
    else if args.slug.value != PluginSlug(ck.pluginFile) then GhOutcome(Passthrough(result), cache, None)
    else
      var i := RequestInfo(cache, env, ck, fetch);
      match i.result
      case Some(info) => GhOutcome(Injected(info), i.cache, i.sent)
      case None => GhOutcome(Passthrough(result), i.cache, i.sent)
  }

  /**
   * Details are injected exactly for this plugin's slug when a release is
   * known, and they describe that release.
   */
  lemma InjectInfoExactly<R>(cache: Store<Decoded>, env: GhEnv, ck: Checker, result: R, action: string,
                             args: ApiArgs, fetch: string -> GhReply)
    ensures var o := InjectInfo(cache, env, ck, result, action, args, fetch);
      && (o.result.Injected? <==>
            AsksForThisPlugin(ck, action, args) && GetLatestRelease(cache, env, ck.coords, fetch).result.Some?)
      && (o.result.Injected? ==>
            o.result.info.version == VersionOfTag(GetLatestRelease(cache, env, ck.coords, fetch).result.value.tagName))
      && (o.result.Passthrough? ==> o.result.result == result)
  {
  }

  /** Another plugin's details request never reaches GitHub, whatever the cache holds. */
  lemma OtherSlugNeverFetches<R>(cache: Store<Decoded>, env: GhEnv, ck: Checker, result: R, slug: string,
                                 fetch: string -> GhReply)
    requires slug != PluginSlug(ck.pluginFile)
    ensures InjectInfo(cache, env, ck, result, PluginInformation, ApiArgs(Some(slug)), fetch).sent.None?
  {
  }

  /** For the plugin at `root/dir/file.php`, the details request under slug `dir` is the one answered. */
  lemma InjectInfoForPluginDirectory<R>(cache: Store<Decoded>, env: GhEnv, root: string, dir: string,
                                        file: string, url: string, branch: string, result: R,
                                        fetch: string -> GhReply)
    requires root != "" && dir != "" && '/' !in dir && '/' !in file
    ensures var ck := NewChecker(url, root + "/" + dir + "/" + file, branch);
      InjectInfo(cache, env, ck, result, PluginInformation, ApiArgs(Some(dir)), fetch).sent ==
        RequestInfo(cache, env, ck, fetch).sent
  {
    OptionNameOfPluginPath(root, dir, file);
  }
}
