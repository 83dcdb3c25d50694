# USGS Stream Gage Data: a Dafny model

This project models the core of the USGS Stream Gage Data WordPress plugin.
The plugin shows river readings from the U.S. Geological Survey water
services in a shortcode. The model covers five parts:

- **USGS API client.** Site validation, site search, current readings and
  historical high/low values. Each result is cached in a WordPress transient
  with its own lifetime.
- **Bounded API log.** The log the client writes to, and its read operations.
- **Admin side.** The sanitiser of the configured-sites option and the AJAX
  "validate site" answer.
- **Shortcode.** Its guards, the site lookup, the choice of history tabs and
  the tab captions.
- **Update plumbing.** The bundled GitHub update checker (repository URL
  parsing, latest-release cache, update and details records, and the two
  WordPress filters), and the plugin's own "View details" answer built from
  the plugin header and readme.txt.

The model is functional. Every operation is a pure function or method. The
transient caches and the log are passed in as an explicit `State` and come
back updated. Every upstream HTTP call goes through a `fetch` parameter
standing for the remote service. Each operation also returns the request it
sent, if any, so "served from cache, nothing requested" can be stated and
proved.

| module | file | models |
|---|---|---|
| `Base` | base.dfy | Option, and the PHP built-ins used: `empty()` on strings, `trim`, `explode`/`implode`, `ltrim`, `ucfirst`, `substr`, `dirname`/`basename` |
| `Transients` | transients.dfy | a transient store: a key is live while the clock is before its expiry |
| `Logger` | logger.dfy | `USGS_Stream_Gage_Logger` |
| `UsgsTypes` | usgs_types.dfy | decoded USGS replies, results, cache keys and lifetimes, the state |
| `Extrema` | extrema.dfy | the high/low reduction inside `get_historical_data` |
| `UsgsApi` | usgs_api.dfy | `USGS_Stream_Gage_API` |
| `Admin` | admin.dfy | `validate_sites_setting` and `ajax_validate_site` |
| `Shortcode` | shortcode.dfy | `render_shortcode` and `get_period_label` |
| `RepositoryUrl` | repository_url.dfy | `parseRepositoryUrl` of the GitHub update checker |
| `GitHubChecker` | github_checker.dfy | the rest of `Puc_v4_GitHub_UpdateChecker` and the option name |
| `UpdateHooks` | update_hooks.dfy | `checkForUpdates` and `injectInfo` |
| `PluginInfo` | plugin_info.dfy | `GitHub_Plugin_Updater::plugin_info_hook` and `get_plugin_info` |

## Modelling choices

- **Separate cache stores.** Each key family has its own typed store:
  validation, current data, each historical period, and GitHub releases.
  `UsgsTypes.KeyFamiliesDisjoint` proves that the source's key prefixes never
  collide, so one shared transient table behaves the same way.
- **Foreign helpers are parameters.** `sanitize_key`, `urlencode`,
  `md5`, `plugin_basename`, `uniqid`, `strval`, `version_compare` (as
  "at most") and the calendar arithmetic behind `strtotime` and `date` are
  parameters of the operations. So are the installed version, the blog
  version and today's date.
- **Admin validator.** `validate_sites_setting` receives `validate_site` as a
  pure function from site number to result.
- **Readings.** A reading is either a number or the empty string.
- **Section bodies.** The readme section bodies come from the section
  patterns, whose lazy matching and lookahead are not modelled. They are a
  parameter from section key and readme text to the captured text.
- **Header lines.** These are modelled exactly: `Contributors: …`,
  `Tags: …`, `Requires at least: …`, `Tested up to: …`, `Requires PHP: …`,
  and the `=== Name ===` title. The leftmost match wins, the lazy group stops
  at the first closing text, and the `.` does not cross a line break.

### Where the model follows the code rather than its description

- **Timestamp of an extreme.** It is the timestamp of the *last* sample
  carrying that value, in series order. The scan overwrites on every match.
  The description says the first.
- **Zero readings.** `array_filter` drops readings of exactly 0 as well as
  gaps, so a series of zeros has no extremes.
- **Cached `false`.** A cached `false` for a site validation (or a GitHub
  release) reads as a miss. The lookup cannot tell it apart from an absent
  transient, so the next call asks upstream again, although the negative
  result was stored for 24 hours.
- **Stats level "total".** In `get_logs_stats`, an entry whose level is
  exactly "total" adds to `total` a second time, because that counter shares
  the array with the per-level counters.
- **Missing readme description goes last.** When readme.txt has no
  description section, the plugin description is added under
  `sections['description']` *after* the sections that were found. PHP appends
  new keys to an array.

## Model

| member | source | states |
|---|---|---|
| UsgsTypes.ParsePeriod | includes/class-usgs-stream-gage-api.php:390-396 | only the codes 24h, 7d, 30d, 1y are accepted, and an accepted code is exactly its period's code |
| UsgsTypes.PeriodCodeRoundTrip | includes/class-usgs-stream-gage-api.php:390 | every period's code is accepted and parses back to that period |
| UsgsTypes.HistoricalTtl | includes/class-usgs-stream-gage-api.php:43-46 | a historical result lives between 30 minutes and 4 hours |
| UsgsTypes.HistoricalTtlGrowsWithWindow | includes/class-usgs-stream-gage-api.php:41-46 | lifetimes grow with the window: current 900 < 24h 1800 < 7d 3600 < 30d 7200 < 1y 14400 < validation 86400 |
| UsgsTypes.KeyFamiliesDisjoint | includes/class-usgs-stream-gage-api.php:71-404 | validation, current and per-period historical keys never collide, and two periods never share a key |
| Logger.Prepend | includes/class-usgs-stream-gage-logger.php:52-57 | the new entry comes first, the old entries follow in order, and the log is cut to 100 by dropping the oldest |
| Logger.Record | includes/class-usgs-stream-gage-logger.php:39-61 | `log` records an entry with its time, message, data and level at the head of a log of 1 to 100 entries |
| Logger.PrependKeepsAllWhileRoom | includes/class-usgs-stream-gage-logger.php:52-57 | below 100 entries nothing is dropped |
| Logger.PrependWhenFull | includes/class-usgs-stream-gage-logger.php:55-57 | at 100 entries the log stays at 100 and loses exactly its oldest entry |
| Logger.RecordRequest | includes/class-usgs-stream-gage-logger.php:70-84 | a request is logged at debug level as "API Request" |
| Logger.RecordError | includes/class-usgs-stream-gage-logger.php:146-158 | an error is logged at error level under the caller's message |
| Logger.Preview | includes/class-usgs-stream-gage-logger.php:127 | a body of at most 500 characters is shown whole; a longer one as its first 500 characters and "..." |
| Logger.ResponseLevel | includes/class-usgs-stream-gage-logger.php:130 | debug exactly for statuses 200 to 299, error for every other status |
| Logger.RecordResponse | includes/class-usgs-stream-gage-logger.php:94-137 | "API Response" is logged at debug iff the status is 2xx, with a body preview iff the body is not JSON |
| Logger.FilterLevel | includes/class-usgs-stream-gage-logger.php:171-175 | the filtered log is no longer than the log and holds only entries of that level |
| Logger.FilterLevelMembers | includes/class-usgs-stream-gage-logger.php:171-175 | an entry survives the filter iff it is in the log and has that level |
| Logger.FilterLevelCounts | includes/class-usgs-stream-gage-logger.php:171-175 | the filter keeps as many entries as the log has of that level |
| Logger.FilterLevelAppend | includes/class-usgs-stream-gage-logger.php:171-175 | filtering commutes with concatenation, so the order of the log is kept |
| Logger.SliceFront | includes/class-usgs-stream-gage-logger.php:178-180 | a limit keeps the first (newest) entries; a negative limit drops that many from the end, as `array_slice` does |
| Logger.GetLogsContract | includes/class-usgs-stream-gage-logger.php:167-183 | the contract of `Logger.GetLogs`: a falsy level does not filter, and a truthy one keeps only entries of that level, all of them when there is no limit; a falsy limit does not truncate; a positive limit gives the first (newest) `limit` entries of the level-filtered log |
| Logger.ClearIdempotent | includes/class-usgs-stream-gage-logger.php:190-192 | clearing twice is clearing once, and the cleared log reads back empty |
| Logger.LogsCountTracksLog | includes/class-usgs-stream-gage-logger.php:52-202 | the count grows by one per logged entry until it stays at 100, and is 0 after clearing |
| Logger.GetLogsStats | includes/class-usgs-stream-gage-logger.php:209-227 | total is the entry count (plus entries of level "total"), each known level counts its entries, and the four per-level counts never exceed the total |
| Extrema.Retained | includes/class-usgs-stream-gage-api.php:498-500 | the filtered readings are no more than the samples and none is zero |
| Extrema.RetainedMembers | includes/class-usgs-stream-gage-api.php:498-500 | a value is retained iff it is non-zero and some sample carries it |
| Extrema.IgnoredReadings | includes/class-usgs-stream-gage-api.php:498-500 | appending a gap or a zero reading changes nothing retained |
| Extrema.MaxOf | includes/class-usgs-stream-gage-api.php:503 | the maximum is one of the values and no value exceeds it |
| Extrema.MinOf | includes/class-usgs-stream-gage-api.php:504 | the minimum is one of the values and no value is below it |
| Extrema.LastIndexOf | includes/class-usgs-stream-gage-api.php:510-517 | the index found carries the value and no later sample does; none found means no sample carries it |
| Extrema.ScanExtremeTimes | includes/class-usgs-stream-gage-api.php:507-517 | the overwriting scan ends with the timestamps of the last samples carrying the high and the low |
| Extrema.SeriesExtremes | includes/class-usgs-stream-gage-api.php:502-524 | the block is all-null exactly when no reading is retained |
| Extrema.SeriesExtremesContract | includes/class-usgs-stream-gage-api.php:502-523 | high and low are retained values bounding all others, each stamped with the last sample carrying it, with the series unit |
| Extrema.NothingRetainedMeansNull | includes/class-usgs-stream-gage-api.php:498-502 | a series of gaps and zeros gives the all-null block |
| Extrema.LastMatchWinsExample | includes/class-usgs-stream-gage-api.php:510-517 | for readings 10, gap, 25, 25 the high 25 is stamped with the fourth sample, not the third |
| UsgsApi.HistoricalRequest | includes/class-usgs-stream-gage-api.php:407-437 | the query asks for the site over the window from one period before the call date to the call date |
| UsgsApi.ValidateSite | includes/class-usgs-stream-gage-api.php:60-154 | a live non-false cache entry is returned with no request; otherwise a failed request gives false uncached, no series gives false cached for a day, and a series gives the site (input number, first series' name and coordinates) cached for a day |
| UsgsApi.FalseNeverShortCircuits | includes/class-usgs-stream-gage-api.php:72-132 | after an upstream "no such site", the next validation of that number requests again |
| UsgsApi.ValidSiteServedFromCache | includes/class-usgs-stream-gage-api.php:72-153 | a site validated upstream is answered from the cache for the next 24 hours, unchanged and without a request |
| UsgsApi.ParseSiteRecord | includes/class-usgs-stream-gage-api.php:233-255 | a record yields one hit iff it has a site code and a name |
| UsgsApi.ParseSites | includes/class-usgs-stream-gage-api.php:231-256 | no more hits than records |
| UsgsApi.ParseSitesAppend | includes/class-usgs-stream-gage-api.php:231-256 | hits keep the order of the records |
| UsgsApi.ParseSitesKeepsCompleteRecord | includes/class-usgs-stream-gage-api.php:237-255 | a complete record becomes a hit with its number and name, its coordinates as given and a missing one null |
| UsgsApi.ParseSitesSkipsIncompleteRecord | includes/class-usgs-stream-gage-api.php:233-235 | a record lacking its code or name contributes nothing |
| UsgsApi.SearchSites | includes/class-usgs-stream-gage-api.php:163-295 | a search always requests upstream and caches nothing; a failed request or no sites gives the empty list |
| UsgsApi.FillCurrent | includes/class-usgs-stream-gage-api.php:358-372 | reading the series never changes the site number or timestamp of the result |
| UsgsApi.LastWithCode | includes/class-usgs-stream-gage-api.php:359-371 | the series chosen has the code and is in the reply; none chosen means no series has it |
| UsgsApi.FillCurrentTakesLastSeries | includes/class-usgs-stream-gage-api.php:359-371 | discharge and gage height come from the first sample of the last series with codes 00060 and 00065, with that series' unit, and stay null without one |
| UsgsApi.GetCurrentData | includes/class-usgs-stream-gage-api.php:304-378 | a live cache entry is returned without a request; a failed request gives an uncached error; otherwise the filled result is cached for 900 s even when no series matched |
| UsgsApi.FillHistorical | includes/class-usgs-stream-gage-api.php:487-558 | reading the series never changes site, period or error flag |
| UsgsApi.LastUsable | includes/class-usgs-stream-gage-api.php:489-525 | the series chosen has the code and retains a reading; none chosen means no such series |
| UsgsApi.FillHistoricalTakesLastUsableSeries | includes/class-usgs-stream-gage-api.php:487-558 | each block comes from the last series of its code that retains a reading, and stays null without one |
| UsgsApi.GetHistoricalData | includes/class-usgs-stream-gage-api.php:388-564 | an unknown period is an error with no cache access or request; otherwise a cache hit is returned, a failed request is an uncached error, and a reply is reduced and cached under the period's key and lifetime |
| UsgsApi.NoUsableSeriesGivesNullBlocks | includes/class-usgs-stream-gage-api.php:465-561 | a reply with nothing usable gives both blocks null with no error, and is cached |
| UsgsApi.NonJsonReplyGivesNullBlocks | includes/class-usgs-stream-gage-api.php:465-561 | a reply that is not JSON carries no series, so both blocks stay null |
| UsgsApi.GetHistoricalDataCoherent | includes/class-usgs-stream-gage-api.php:388-564 | a cache holding only values for their key's period stays so, and the data returned is for the period asked for |
| Admin.SanitizeEntryMeaning | admin/class-usgs-stream-gage-admin.php:229-256 | an entry is kept iff it has a site number and is validated or validates now; a kept entry takes the validator's name and coordinates, is marked validated and keeps or receives an id |
| Admin.SettledEntryStays | admin/class-usgs-stream-gage-admin.php:236-254 | a validated entry with an id passes through unchanged |
| Admin.SanitizeList | admin/class-usgs-stream-gage-admin.php:229-259 | the output is no longer than the input and every entry in it is settled |
| Admin.SanitizeSites | admin/class-usgs-stream-gage-admin.php:222-260 | non-array input gives []; otherwise the output lists, in input order, exactly the entries that are kept, each sanitised from its source entry |
| Admin.SettledListStays | admin/class-usgs-stream-gage-admin.php:236-254 | a list of settled entries is a fixed point |
| Admin.SanitizeIdempotent | admin/class-usgs-stream-gage-admin.php:222-260 | sanitising a sanitised list changes nothing and consults no validator |
| Admin.FormFlagRevalidates | admin/class-usgs-stream-gage-admin.php:236-242 | the form's string "1" does not count as validated: the entry is re-validated and dropped if that fails |
| Admin.AjaxValidateSite | admin/class-usgs-stream-gage-admin.php:373-449 | permission and empty-number errors come first; false is an error; a malformed site deletes its validation cache entry and is an error; anything else succeeds with the site |
| Admin.AjaxSuccessExactly | admin/class-usgs-stream-gage-admin.php:407-448 | success happens iff the caller may manage, the number is non-empty, and validation gives a well-formed site, which is the one returned |
| Admin.MalformedReplyForcesRefetch | admin/class-usgs-stream-gage-admin.php:427-428 | after the "invalid data" reply, the next validation of that number requests upstream |
| Shortcode.ShortcodeAtts | includes/class-usgs-stream-gage-shortcode.php:62-74 | each of the seven declared attributes takes the user's value when given, else its default: "" for `id`, "yes" for the six flags |
| Shortcode.AttsByName | includes/class-usgs-stream-gage-shortcode.php:62-74 | the seven declared names cover every attribute, so the contract above fixes the result |
| Shortcode.ShortcodeAttsIgnoresUndeclared | includes/class-usgs-stream-gage-shortcode.php:62-74 | undeclared attributes change nothing, and a bare shortcode gets every default |
| Shortcode.PeriodsFor | includes/class-usgs-stream-gage-shortcode.php:106-110 | a period is shown iff its flag is exactly "yes", in the order 24h, 7d, 30d, 1y |
| Shortcode.PeriodsForExamples | includes/class-usgs-stream-gage-shortcode.php:67-110 | defaults show all four tabs; "Yes" and "1" hide theirs |
| Shortcode.PeriodLabel | includes/class-usgs-stream-gage-shortcode.php:271-284 | an unknown code is labelled with its first letter capitalised |
| Shortcode.PeriodLabelsDistinct | includes/class-usgs-stream-gage-shortcode.php:273-280 | the four periods have four different fixed labels, none equal to the capitalised code |
| Shortcode.FindSite | includes/class-usgs-stream-gage-shortcode.php:82-90 | the first site whose id is strictly the attribute; none when no id matches |
| Shortcode.FetchPeriods | includes/class-usgs-stream-gage-shortcode.php:113-116 | one historical result per shown period, threading the cache, at most one request each |
| Shortcode.FetchPeriodsMatchesPeriods | includes/class-usgs-stream-gage-shortcode.php:113-116 | with a coherent cache, every data result is for the period in the same position, and the cache stays coherent |
| Shortcode.WarmPeriodsServedFromCache | includes/class-usgs-stream-gage-shortcode.php:113-116 | with every period cached, nothing is requested, the state is unchanged and each result is the cached value |
| Shortcode.RenderShortcode | includes/class-usgs-stream-gage-shortcode.php:60-177 | an empty id errors with no lookup or request; an unknown id errors with no request; a current-data error stops before any historical fetch; otherwise the panel has one tab per shown period, in order, with its label, and only the first is active |
| Shortcode.ColdPeriodsAllFetched | includes/class-usgs-stream-gage-shortcode.php:114-116 | with nothing cached, each period of a duplicate-free list is requested upstream, in order |
| Shortcode.ColdRenderRequests | includes/class-usgs-stream-gage-shortcode.php:97-116 | a cold render requests current data, then each shown period in tab order |
| RepositoryUrl.GitHubPrefixLength | plugin-update-checker/Puc_v4_GitHub_UpdateChecker.php:41 | the match is 19 characters iff the URL starts with "https://github.com/", 18 iff with "http://github.com/", and absent iff neither; in both, letters match in either case and the '.' is any character but a line break |
| RepositoryUrl.StripGitHubPrefix | plugin-update-checker/Puc_v4_GitHub_UpdateChecker.php:41 | the https form loses its 19 characters, the http form its 18, and any other URL is kept whole |
| RepositoryUrl.StripsScheme | plugin-update-checker/Puc_v4_GitHub_UpdateChecker.php:41 | every spelling of either scheme and host that the pattern accepts is removed, whatever follows it |
| RepositoryUrl.StripGitSuffix | plugin-update-checker/Puc_v4_GitHub_UpdateChecker.php:50 | a final ".git" is removed, also just before a final line break; anything else is unchanged |
| RepositoryUrl.ParseRepositoryUrl | plugin-update-checker/Puc_v4_GitHub_UpdateChecker.php:39-52 | owner and repository contain no '/', and with fewer than two parts both stay empty |
| RepositoryUrl.StripGitSuffixKeeps | plugin-update-checker/Puc_v4_GitHub_UpdateChecker.php:50 | a name without ".git" is kept, and exactly one appended ".git" is removed |
| RepositoryUrl.ParseRepositoryUrlRoundTrip | plugin-update-checker/Puc_v4_GitHub_UpdateChecker.php:39-52 | a GitHub URL, in either scheme, any letter case and any host separator the pattern accepts, or a bare "owner/repo" that does not itself start like one, parses back to that owner and repository |
| RepositoryUrl.ParseOwnerRepo | plugin-update-checker/Puc_v4_GitHub_UpdateChecker.php:41-50 | after a known scheme, the first two parts are owner and repository with ".git" stripped |
| RepositoryUrl.ParseRepositoryUrlDropsGitSuffix | plugin-update-checker/Puc_v4_GitHub_UpdateChecker.php:50 | a trailing ".git" on the repository is dropped |
| RepositoryUrl.ParseRepositoryUrlIgnoresDeeperPath | plugin-update-checker/Puc_v4_GitHub_UpdateChecker.php:44-47 | path segments after the repository are ignored |
| RepositoryUrl.HostDotMatchesAnyCharacter | plugin-update-checker/Puc_v4_GitHub_UpdateChecker.php:41 | the unescaped '.' accepts a look-alike host such as "githubXcom", but not a line break |
| GitHubChecker.GetLatestRelease | plugin-update-checker/Puc_v4_GitHub_UpdateChecker.php:128-164 | without owner and repository nothing is read or requested; a live non-false cache entry is used without a request; a failed or non-200 request caches nothing; a 200 reply is cached for six hours and only an object is a release |
| GitHubChecker.ReleaseServedFromCache | plugin-update-checker/Puc_v4_GitHub_UpdateChecker.php:135-160 | a fetched release is answered from the cache for six hours |
| GitHubChecker.DecodedFalseRefetched | plugin-update-checker/Puc_v4_GitHub_UpdateChecker.php:137-163 | a reply decoding to false is cached but never spares the next request |
| GitHubChecker.VersionOfTag | plugin-update-checker/Puc_v4_GitHub_UpdateChecker.php:71-96 | the version does not start with 'v' and ends the tag |
| GitHubChecker.VersionOfTagIgnoresPrefix | plugin-update-checker/Puc_v4_GitHub_UpdateChecker.php:96 | any number of leading 'v's is removed |
| GitHubChecker.RequestUpdate | plugin-update-checker/Puc_v4_GitHub_UpdateChecker.php:86-111 | no release, no update; a release gives an update iff its version is not at most the installed one, carrying slug, basename, version, page and zip |
| GitHubChecker.RequestInfo | plugin-update-checker/Puc_v4_GitHub_UpdateChecker.php:59-79 | details exist iff a release does: directory name as name and slug, tag version, page, zip, and the body or "GitHub release" |
| GitHubChecker.OptionName | plugin-update-checker/plugin-update-checker.php:44 | the option name starts with "external_updates-" |
| GitHubChecker.OptionNameOfPluginPath | plugin-update-checker/plugin-update-checker.php:44-105 | a plugin at root/dir/file has slug dir and option name "external_updates-dir" |
| GitHubChecker.NewChecker | plugin-update-checker/Puc_v4_GitHub_UpdateChecker.php:24-32 | the checker keeps its settings and the parsed URL |
| UpdateHooks.CheckForUpdates | plugin-update-checker/plugin-update-checker.php:66-77 | a non-object becomes an empty list; this plugin's entry is set exactly when an update is offered, and nothing else changes |
| UpdateHooks.CheckForUpdatesKeepsOthers | plugin-update-checker/plugin-update-checker.php:71-76 | other plugins' entries and the other properties pass through |
| UpdateHooks.CheckForUpdatesOffersNewerOnly | plugin-update-checker/plugin-update-checker.php:71-74 | this plugin's entry appears iff the release is newer than the installed version, and names that version |
| UpdateHooks.InjectInfo | plugin-update-checker/plugin-update-checker.php:94-111 | a request other than this plugin's details passes through without a lookup; otherwise the details replace the result when a release is known |
| UpdateHooks.InjectInfoExactly | plugin-update-checker/plugin-update-checker.php:94-111 | details are injected iff the request is for this slug and a release exists, with the release's version; otherwise the result is untouched |
| UpdateHooks.OtherSlugNeverFetches | plugin-update-checker/plugin-update-checker.php:99-103 | a details request for another slug never reaches GitHub |
| UpdateHooks.InjectInfoForPluginDirectory | plugin-update-checker/plugin-update-checker.php:99-105 | for a plugin in directory dir, the request for slug dir is the one answered |
| PluginInfo.GetPluginInfo | includes/class-github-plugin-info.php:195-215 | the header (or the fallback header) with slug, repository URL and branch from the updater, other keys unchanged |
| PluginInfo.UpdaterSettingsWin | includes/class-github-plugin-info.php:210-214 | a header's own slug is overridden, and exactly the three updater keys are added |
| PluginInfo.FirstCapture | includes/class-github-plugin-info.php:317-322 | a capture never spans a line break, and no capture without the opening text |
| PluginInfo.CaptureExactly | includes/class-github-plugin-info.php:317-322 | the text between the first opening and the first closing text on its line is what is captured |
| PluginInfo.HeaderLine | includes/class-github-plugin-info.php:318-322 | a "Field: text" line yields text when the field name does not occur earlier |
| PluginInfo.ReadmeTitle | includes/class-github-plugin-info.php:317 | a leading "=== Name ===" yields the name |
| PluginInfo.HeaderList | includes/class-github-plugin-info.php:326-333 | one item per comma-separated piece, none containing a comma |
| PluginInfo.HeaderListOfJoin | includes/class-github-plugin-info.php:326-333 | splitting a comma-joined list gives back its items, trimmed |
| PluginInfo.Assign | includes/class-github-plugin-info.php:289-303 | assigning a section sets its body, keeps every other section, keeps an existing key in place and appends a new one |
| PluginInfo.ExtractSections | includes/class-github-plugin-info.php:286-299 | a section is present iff its capture is non-empty (not "" or "0"), with the capture trimmed |
| PluginInfo.ExtractAllFound | includes/class-github-plugin-info.php:277-299 | when every section is found they appear in the parser's order |
| PluginInfo.DescriptionFallback | includes/class-github-plugin-info.php:302-304 | an empty or missing description becomes the plugin's Description (or ""), other sections untouched, and the array is non-empty |
| PluginInfo.DefaultBlockNeverRuns | includes/class-github-plugin-info.php:302-314 | after the description fallback the defaults block changes nothing |
| PluginInfo.MissingDescriptionGoesLast | includes/class-github-plugin-info.php:286-304 | without a readme description, the plugin's description is the last section |
| PluginInfo.PluginInfoHook | includes/class-github-plugin-info.php:237-348 | details are built iff the action, strict slug and readme checks pass; header lines override the defaults 5.0, blog version and 7.0; homepage falls back to the repository; the download link is the branch archive; sections are never empty |
| PluginInfo.HookReadsRequiresPhp | includes/class-github-plugin-info.php:322-336 | a "Requires PHP: v" line sets requires_php to v |
| PluginInfo.HookDefaultsRequires | includes/class-github-plugin-info.php:264-334 | without a "Requires at least: " line, requires stays 5.0 |
| PluginInfo.HookSplitsContributors | includes/class-github-plugin-info.php:318-329 | a contributors line becomes the list of its comma-separated names, trimmed |

## Left out

- HTTP transport, status and body retrieval, and JSON decoding. Replies are typed values: a transport error, or a status with a decoded body.
- Floating-point parsing: readings are exact reals or gaps. `floatval` on malformed text and the loose `==` between a reading string and a float are not modelled.
- `strtotime`/`date`, time zones and the leap-day behaviour of "-1 year". They are the parameters `periodBefore` and `dateOf`.
- `format_date` (locale formatting through `date_i18n`).
- The section patterns of readme.txt, with their lazy matching and lookahead. Their captures are a parameter.
- The exact text and data of log entries written inside API calls. The model records that entries are written, and keeps the bound on the log.
- Only `values[0]` of a series is read, as in the source. The other value blocks are not modelled.
- Missing `sourceInfo` fields in a validation reply. PHP would read them as null; the model requires them.
- The nonce check and `wp_send_json_*` termination in `ajax_validate_site`.
- The `!is_array($validation)` branch. Validation yields false or a site record.
- `dirname`/`basename` on paths with a trailing slash.
- Admin.SanitizeSites: the validator is a pure function. The cache and log effects of `validate_site` inside the sanitiser are not threaded.
- GitHubChecker.GetLatestRelease: a release object lacking `tag_name`, `html_url` or `zipball_url` is not modelled. Only `body` may be absent.
- UpdateHooks.InjectInfo: the loose `!=` between action and slug strings is modelled as string inequality. PHP's numeric-string comparison is not.
- The `GitHub_Plugin_Updater` constructor, its metadata defaults, `setup_update_checker` (it drives an external update library), the missing-library notice and `ensure_plugin_info`.
- Hook registration, script and style enqueueing, menus and every piece of HTML and JavaScript output.
- `setSlug`, `setCheckPeriod` and `getInstalledVersion`. The installed version is a parameter.
- A header field absent from the plugin data reads as "". PHP would give null.
- Logger.Preview: lengths (here and in `Base.Prefix`) are counted in characters, while PHP's `substr` and `strlen` count bytes. A body with non-ASCII text is cut at a different point, and the 500 limit is a byte count in the source.
- Shortcode.FetchPeriodsMatchesPeriods: the period of cached data is promised only for a coherent cache. Another writer of the same transient key could store anything there.
- The `Reply` type does not force a non-JSON reply to carry an empty body. `WellFormedReply` states that, and the lemmas that need it require it.
