/**
 * GitHub_Plugin_Updater: the plugin's own answer to the "View details"
 * request, assembled from the plugin header and readme.txt, and the
 * plugin-info array it exposes.
 */
module PluginInfo {
  import opened Base

  /** The updater's settings as the constructor stores them. */
  datatype Updater = Updater(pluginFile: string, pluginSlug: string, repositoryUrl: string, branch: string)

  /** The plugin header as `get_plugin_data` returns it, field name to text. */
  type PluginData = map<string, string>

  /** A header field; one the header does not carry reads as "". */
  function Header(pd: PluginData, key: string): string {
    if key in pd then pd[key] else ""
  }

  // ---------------------------------------------------------------------------
  // get_plugin_info
  // ---------------------------------------------------------------------------

  /** The header used when `get_plugin_data` is not loaded. */
  const FallbackPluginData: PluginData := map[
    "Name" := "Frost Date Lookup",
    "Version" := "1.0.32",
    "Author" := "Everette Mills",
    "AuthorURI" := "https://blueboatsolutions.com",
    "Description" := "A plugin to retrieve average frost-free dates based on zip code using NOAA/NWS data."
  ]

  /** The three keys the updater always supplies itself. */
  predicate UpdaterKey(k: string) {
    k == "plugin_slug" || k == "repository_url" || k == "branch"
  }

  /**
   * The header (or the fallback when `get_plugin_data` is unavailable),
   * with slug, repository URL and branch taken from the updater.
   */
  function GetPluginInfo(u: Updater, headerData: Option<PluginData>): (info: map<string, string>)
    ensures var pd := headerData.GetOr(FallbackPluginData);
      && (forall k :: k in info <==> k in pd || UpdaterKey(k))
      && (forall k :: k in pd && !UpdaterKey(k) ==> info[k] == pd[k])
    ensures "plugin_slug" in info && info["plugin_slug"] == u.pluginSlug
    ensures "repository_url" in info && info["repository_url"] == u.repositoryUrl
    ensures "branch" in info && info["branch"] == u.branch
  {
    var pd := match headerData case Some(d) => d case None => FallbackPluginData;
    pd + map["plugin_slug" := u.pluginSlug, "repository_url" := u.repositoryUrl, "branch" := u.branch]
  }

  /** A header that names its own slug or repository is overridden by the updater's settings. */
  lemma UpdaterSettingsWin(u: Updater, pd: PluginData, otherSlug: string)
    requires "plugin_slug" in pd && pd["plugin_slug"] == otherSlug && otherSlug != u.pluginSlug
    ensures GetPluginInfo(u, Some(pd))["plugin_slug"] != otherSlug
    ensures GetPluginInfo(u, Some(pd)).Keys == pd.Keys + {"plugin_slug", "repository_url", "branch"}
  {
    var info := GetPluginInfo(u, Some(pd));
    forall k | k in info.Keys ensures k in pd.Keys + {"plugin_slug", "repository_url", "branch"} {
      assert k in pd || UpdaterKey(k);
    }
  }

  // ---------------------------------------------------------------------------
  // Header lines: preg_match('/Label: (.*?)\n/') and preg_match('/=== (.*?) ===/')
  // ---------------------------------------------------------------------------

  /** `w` occurs in `s` at position `j`. */
  predicate At(s: string, j: nat, w: string) {
    j + |w| <= |s| && s[j..j + |w|] == w
  }

  /** No line break in `s[from..to]`: the unflagged `.` cannot cross one. */
  predicate NoNewline(s: string, from: nat, to: nat)
    requires from <= to <= |s|
  {
    forall k :: from <= k < to ==> s[k] != '\n'
  }

  /**
   * Where the lazy `(.*?)` starting at `q` stops: the first occurrence of
   * `close` at or after `q` that no line break precedes.
   */
  function CloseFrom(s: string, q: nat, close: string): (j: Option<nat>)
    requires q <= |s|
    ensures j.Some? ==> q <= j.value <= |s| && At(s, j.value, close) && NoNewline(s, q, j.value)
    ensures j.Some? ==> forall k :: q <= k < j.value ==> !At(s, k, close)
    ensures j.None? ==> forall k :: q <= k <= |s| && NoNewline(s, q, k) ==> !At(s, k, close)
    decreases |s| - q
  {
    if At(s, q, close) then Some(q)
    else if q == |s| || s[q] == '\n' then None
    else CloseFrom(s, q + 1, close)
  }

  /** What group 1 captures for a match starting at `p`, if one starts there. */
  function MatchAt(s: string, p: nat, open: string, close: string): (m: Option<string>)
    requires p <= |s|
    ensures m.Some? ==> At(s, p, open) && '\n' !in m.value
  {
    if !At(s, p, open) then None
    else
      match CloseFrom(s, p + |open|, close)
      case None => None
      case Some(j) =>
        var t := s[p + |open|..j];
        assert forall i :: 0 <= i < |t| ==> t[i] == s[p + |open| + i];
        Some(t)
  }

  /** The leftmost position at or after `from` where a match starts. */
  function FirstMatchFrom(s: string, open: string, close: string, from: nat): (r: Option<nat>)
    requires from <= |s|
    ensures r.Some? ==> from <= r.value <= |s| && MatchAt(s, r.value, open, close).Some?
    ensures r.Some? ==> forall p :: from <= p < r.value ==> MatchAt(s, p, open, close).None?
    ensures r.None? ==> forall p :: from <= p <= |s| ==> MatchAt(s, p, open, close).None?
    decreases |s| - from
  {
    if MatchAt(s, from, open, close).Some? then Some(from)
    else if from == |s| then None
    else FirstMatchFrom(s, open, close, from + 1)
  }

  /** Group 1 of `preg_match('/<open>(.*?)<close>/', $s)`, None when nothing matches. */
  function FirstCapture(s: string, open: string, close: string): (c: Option<string>)
    ensures c.Some? ==> '\n' !in c.value
    ensures (forall p :: 0 <= p <= |s| ==> !At(s, p, open)) ==> c.None?
  {
    match FirstMatchFrom(s, open, close, 0)
    case None => None
    case Some(p) => MatchAt(s, p, open, close)
  }

  /**
   * When `open` first occurs right after `pre`, and `close` ends the line
   * text `x` (with no earlier `close` inside it), the capture is `x`.
   */
  lemma CaptureExactly(pre: string, open: string, x: string, close: string, rest: string)
    requires '\n' !in x
    requires forall p :: 0 <= p < |pre| ==> !At(pre + open + x + close + rest, p, open)
    requires forall k :: |pre| + |open| <= k < |pre| + |open| + |x| ==> !At(pre + open + x + close + rest, k, close)
    ensures FirstCapture(pre + open + x + close + rest, open, close) == Some(x)
  {
    var s := pre + open + x + close + rest;
    var q := |pre| + |open|;
    var j := q + |x|;
    Pieces(pre, open, x, close, rest);
    NoNewlineSlice(s, q, j);
    CaptureAt(s, |pre|, open, close, j, x);
  }

  lemma NoNewlineSlice(s: string, from: nat, to: nat)
    requires from <= to <= |s| && '\n' !in s[from..to]
    ensures NoNewline(s, from, to)
  {
    assert forall k :: from <= k < to ==> s[k] == s[from..to][k - from];
  }

  /**
   * The first occurrence of the opening text, closed first at `j` on the
   * same line, gives the capture between the two.
   */
  lemma CaptureAt(s: string, p: nat, open: string, close: string, j: nat, x: string)
    requires p + |open| <= j && j + |close| <= |s| && s[p + |open|..j] == x
    requires s[p..p + |open|] == open && s[j..j + |close|] == close && NoNewline(s, p + |open|, j)
    requires forall k :: 0 <= k < p ==> !At(s, k, open)
    requires forall k :: p + |open| <= k < j ==> !At(s, k, close)
    ensures FirstCapture(s, open, close) == Some(x)
  {
    MatchBetween(s, p, open, close, j);
    LeftmostMatch(s, p, open, close);
  }

  /** Where each piece of a five-piece concatenation sits. */
  lemma Pieces(a: string, b: string, c: string, d: string, e: string)
    ensures var s := a + b + c + d + e;
      && s[|a|..|a| + |b|] == b
      && s[|a| + |b|..|a| + |b| + |c|] == c
      && s[|a| + |b| + |c|..|a| + |b| + |c| + |d|] == d
  {
    var s := a + b + c + d + e;
    assert s[..|a| + |b| + |c| + |d|] == a + b + c + d;
    assert (a + b + c + d)[..|a| + |b| + |c|] == a + b + c;
    assert (a + b + c)[..|a| + |b|] == a + b;
  }

  /** An opening text at `p` closed first at `j` on the same line is a match capturing what lies between. */
  lemma MatchBetween(s: string, p: nat, open: string, close: string, j: nat)
    requires p + |open| <= j <= |s| && At(s, p, open) && At(s, j, close) && NoNewline(s, p + |open|, j)
    requires forall k :: p + |open| <= k < j ==> !At(s, k, close)
    ensures MatchAt(s, p, open, close) == Some(s[p + |open|..j])
  {
    assert CloseFrom(s, p + |open|, close) == Some(j);
  }

  /** A match at the first occurrence of the opening text is the one `preg_match` reports. */
  lemma LeftmostMatch(s: string, p: nat, open: string, close: string)
    requires p <= |s| && MatchAt(s, p, open, close).Some?
    requires forall k :: 0 <= k < p ==> !At(s, k, open)
    ensures FirstCapture(s, open, close) == MatchAt(s, p, open, close)
  {
    assert FirstMatchFrom(s, open, close, 0) == Some(p);
  }

  /** A header line "Label: text\n" yields `text`, when the field name does not occur earlier. */
  lemma HeaderLine(pre: string, field: string, line: string, rest: string)
    requires '\n' !in line
    requires forall p :: 0 <= p < |pre| ==> !At(pre + field + line + "\n" + rest, p, field)
    ensures FirstCapture(pre + field + line + "\n" + rest, field, "\n") == Some(line)
  {
    var s := pre + field + line + "\n" + rest;
    var q := |pre| + |field|;
    forall k | q <= k < q + |line|
      ensures !At(s, k, "\n")
    {
      assert s[k] == line[k - q];
      assert s[k..k + 1][0] == s[k];
    }
    CaptureExactly(pre, field, line, "\n", rest);
  }

  /** The readme title "=== Name ===" opening the file yields `Name`, for a name without '=' or a line break. */
  lemma ReadmeTitle(name: string, rest: string)
    requires '\n' !in name && '=' !in name
    ensures FirstCapture("=== " + name + " ===" + rest, "=== ", " ===") == Some(name)
  {
    var s := "" + "=== " + name + " ===" + rest;
    assert s == "=== " + name + " ===" + rest;
    forall k | 4 <= k < 4 + |name|
      ensures !At(s, k, " ===")
    {
      if k + 1 < 4 + |name| {
        assert s[k + 1] == name[k + 1 - 4];
      } else {
        assert s[k + 1] == ' ';
      }
    }
    CaptureExactly("", "=== ", name, " ===", rest);
  }

  /** `array_map('trim', explode(',', $text))`. */
  function HeaderList(text: string): (items: seq<string>)
    ensures |items| == |Explode(text, ',')|
    ensures forall i :: 0 <= i < |items| ==> ',' !in items[i]
  {
    var parts := Explode(text, ',');
    seq(|parts|, i requires 0 <= i < |parts| => Trim(parts[i]))
  }

  /** A comma-separated list splits back into its items, each trimmed. */
  lemma {:induction false} HeaderListOfJoin(items: seq<string>)
    requires |items| >= 1 && NoneContains(items, ',')
    ensures HeaderList(Join(items, ',')) == seq(|items|, i requires 0 <= i < |items| => Trim(items[i]))
    ensures (forall i :: 0 <= i < |items| ==> Trim(items[i]) == items[i]) ==> HeaderList(Join(items, ',')) == items
  {
    ExplodeJoin(items, ',');
  }

  // ---------------------------------------------------------------------------
  // The sections array
  // ---------------------------------------------------------------------------

  /** One entry of `$info->sections`; the array keeps insertion order. */
  datatype Section = Section(key: string, body: string)

  type Sections = seq<Section>

  function Lookup(secs: Sections, key: string): Option<string> {
    if |secs| == 0 then None
    else if secs[0].key == key then Some(secs[0].body)
    else Lookup(secs[1..], key)
  }

  /**
   * `$sections[$key] = $body`: an existing key keeps its place and takes
   * the new body; a new key goes at the end.
   */
  function Assign(secs: Sections, key: string, body: string): (r: Sections)
    ensures Lookup(r, key) == Some(body)
    ensures forall k :: k != key ==> Lookup(r, k) == Lookup(secs, k)
    ensures Lookup(secs, key).Some? ==> |r| == |secs|
    ensures Lookup(secs, key).None? ==> r == secs + [Section(key, body)]
    decreases |secs|
  {
    if |secs| == 0 then [Section(key, body)]
    else if secs[0].key == key then [Section(key, body)] + secs[1..]
    else
      var tail := Assign(secs[1..], key, body);
      assert ([secs[0]] + tail)[1..] == tail;
      assert Lookup(secs[1..], key).None? ==> [secs[0]] + (secs[1..] + [Section(key, body)]) == secs + [Section(key, body)];
      [secs[0]] + tail
  }

  /** The sections the readme parser looks for, in order. */
  const SectionKeys: seq<string> := ["description", "installation", "faq", "changelog", "screenshots"]

  /** `!empty($matches[1])`: a section is kept only when its capture is neither missing, "" nor "0". */
  predicate Captured(m: Option<string>) {
    m.Some? && !PhpEmpty(m.value)
  }

  /**
   * The extraction loop: for each key in turn, a kept capture is trimmed
   * and stored. `sectionBody(key, readme)` is what that key's pattern captures.
   */
  function ExtractSections(keys: seq<string>, readme: string, sectionBody: (string, string) -> Option<string>)
    : (secs: Sections)
    ensures forall k :: Lookup(secs, k) ==
                        (if k in keys && Captured(sectionBody(k, readme)) then Some(Trim(sectionBody(k, readme).value))
                         else None)
    decreases |keys|
  {
    if |keys| == 0 then []
    else
      var init := keys[..|keys| - 1];
      var key := keys[|keys| - 1];
      var acc := ExtractSections(init, readme, sectionBody);
      assert forall k :: k in keys <==> k in init || k == key by {
        assert keys == init + [key];
      }
      var m := sectionBody(key, readme);
      if Captured(m) then Assign(acc, key, Trim(m.value)) else acc
  }

  /** The stored entry of a section whose capture is kept. */
  function Found(key: string, readme: string, sectionBody: (string, string) -> Option<string>): Section {
    Section(key, Trim(sectionBody(key, readme).GetOr("")))
  }

  predicate Distinct(keys: seq<string>) {
    forall i, j :: 0 <= i < j < |keys| ==> keys[i] != keys[j]
  }

  /** Every key's stored entry, in the order of the keys. */
  function AllFound(keys: seq<string>, readme: string, sectionBody: (string, string) -> Option<string>)
    : (r: Sections)
    ensures |r| == |keys|
    ensures forall i :: 0 <= i < |keys| ==> r[i] == Found(keys[i], readme, sectionBody)
    decreases |keys|
  {
    if |keys| == 0 then []
    else AllFound(keys[..|keys| - 1], readme, sectionBody) + [Found(keys[|keys| - 1], readme, sectionBody)]
  }

  /** When every section is found, they appear in the parser's order, each trimmed. */
  lemma {:induction false} ExtractAllFound(keys: seq<string>, readme: string,
                                           sectionBody: (string, string) -> Option<string>)
    requires Distinct(keys)
    requires forall i :: 0 <= i < |keys| ==> Captured(sectionBody(keys[i], readme))
    ensures ExtractSections(keys, readme, sectionBody) == AllFound(keys, readme, sectionBody)
    decreases |keys|
  {
    if |keys| > 0 {
      var init := keys[..|keys| - 1];
      var key := keys[|keys| - 1];
      assert forall i :: 0 <= i < |init| ==> init[i] == keys[i];
      ExtractAllFound(init, readme, sectionBody);
      assert key !in init;
      ExtractAppends(keys, readme, sectionBody);
    }
  }

  /** A kept section whose key is new goes at the end. */
  lemma ExtractAppends(keys: seq<string>, readme: string, sectionBody: (string, string) -> Option<string>)
    requires |keys| > 0 && keys[|keys| - 1] !in keys[..|keys| - 1]
    requires Captured(sectionBody(keys[|keys| - 1], readme))
    ensures ExtractSections(keys, readme, sectionBody) ==
      ExtractSections(keys[..|keys| - 1], readme, sectionBody) + [Found(keys[|keys| - 1], readme, sectionBody)]
  {
    var acc := ExtractSections(keys[..|keys| - 1], readme, sectionBody);
    assert Lookup(acc, keys[|keys| - 1]).None?;
  }

  /** The text used when no description section was found. */
  function DescriptionFallback(secs: Sections, pd: PluginData): (r: Sections)
    ensures |r| > 0
    ensures forall k :: k != "description" ==> Lookup(r, k) == Lookup(secs, k)
    ensures Captured(Lookup(secs, "description")) ==> r == secs
    ensures !Captured(Lookup(secs, "description")) ==> Lookup(r, "description") == Some(Header(pd, "Description"))
    // a missing description is added after the sections that were found
    ensures Lookup(secs, "description").None? ==> r == secs + [Section("description", Header(pd, "Description"))]
  {
    var d := Lookup(secs, "description");
    if Captured(d) then
      assert |secs| > 0;
      secs
    else Assign(secs, "description", Header(pd, "Description"))
  }

  const InstallationDefault := "Please see the plugin documentation for installation instructions."

  /** The `empty($info->sections)` defaults block. */
  function DefaultSections(secs: Sections, version: string, pd: PluginData): Sections {
    if |secs| == 0 then
      [Section("description", Header(pd, "Description")),
       Section("installation", InstallationDefault),
       Section("changelog", "= " + version + " =\n* Initial release.")]
    else secs
  }

  /** The description fallback always leaves a section, so the defaults block never changes anything. */
  lemma DefaultBlockNeverRuns(secs: Sections, version: string, pd: PluginData)
    ensures DefaultSections(DescriptionFallback(secs, pd), version, pd) == DescriptionFallback(secs, pd)
    ensures Lookup(DescriptionFallback(secs, pd), "description").Some?
  {
  }

  /** A readme without a description lists the plugin's own description last. */
  lemma MissingDescriptionGoesLast(readme: string, sectionBody: (string, string) -> Option<string>, pd: PluginData)
    requires !Captured(sectionBody("description", readme))
    ensures var secs := DescriptionFallback(ExtractSections(SectionKeys, readme, sectionBody), pd);
      secs[|secs| - 1] == Section("description", Header(pd, "Description"))
  {
  }

  // ---------------------------------------------------------------------------
  // plugin_info_hook
  // ---------------------------------------------------------------------------

  /** The details object returned to the "View details" window. */
  datatype Info = Info(name: string, slug: string, version: string, author: string, authorProfile: string,
                       requiresWp: string, tested: string, requiresPhp: string, lastUpdated: string,
                       sections: Sections, contributors: Option<seq<string>>, tags: Option<seq<string>>,
                       homepage: string, downloadLink: string, external: bool)

  /** The filter's answer: the incoming `$result`, or this plugin's details. */
  datatype HookAnswer<R> = Unchanged(result: R) | Details(info: Info)

  const RequiresDefault := "5.0"
  const RequiresPhpDefault := "7.0"

  function HeaderListOf(readme: string, field: string): Option<seq<string>> {
    match FirstCapture(readme, field, "\n")
    case None => None
    case Some(text) => Some(HeaderList(text))
  }

  /**
   * `plugin_info_hook($result, $action, $args)`. The readme is None when
   * readme.txt does not exist; `sectionBody` stands for the section
   * patterns; `blogVersion` and `today` are `get_bloginfo('version')` and
   * `date('Y-m-d')`.
   */
  function PluginInfoHook<R>(u: Updater, result: R, action: string, slug: Option<string>, pd: PluginData,
                             readme: Option<string>, sectionBody: (string, string) -> Option<string>,
                             blogVersion: string, today: string)
    : (a: HookAnswer<R>)
    // strict comparisons: only this plugin's details request, and only with a readme
    ensures a.Details? <==> action == "plugin_information" && slug == Some(u.pluginSlug) && readme.Some?
    ensures a.Unchanged? ==> a.result == result
    ensures a.Details? ==>
      var text := readme.value;
      var i := a.info;
      && i.slug == u.pluginSlug
      && i.name == FirstCapture(text, "=== ", " ===").GetOr(Header(pd, "Name"))
      && i.version == Header(pd, "Version")
      && i.requiresWp == FirstCapture(text, "Requires at least: ", "\n").GetOr(RequiresDefault)
      && i.tested == FirstCapture(text, "Tested up to: ", "\n").GetOr(blogVersion)
      && i.requiresPhp == FirstCapture(text, "Requires PHP: ", "\n").GetOr(RequiresPhpDefault)
      && i.contributors == HeaderListOf(text, "Contributors: ")
      && i.tags == HeaderListOf(text, "Tags: ")
      && (PhpEmpty(Header(pd, "PluginURI")) ==> i.homepage == u.repositoryUrl)
      && (!PhpEmpty(Header(pd, "PluginURI")) ==> i.homepage == Header(pd, "PluginURI"))
      && i.downloadLink == u.repositoryUrl + "/archive/refs/heads/" + u.branch + ".zip"
      && i.external
      // the sections array is never empty and always has a description
      && |i.sections| > 0 && Lookup(i.sections, "description").Some?
      && (forall k :: k != "description" ==>
                        Lookup(i.sections, k) == Lookup(ExtractSections(SectionKeys, text, sectionBody), k))
  {
    if action != "plugin_information" || slug.None? || slug.value != u.pluginSlug then Unchanged(result)
    else if readme.None? then Unchanged(result)
    else
      var text := readme.value;
      var version := Header(pd, "Version");
      var found := DescriptionFallback(ExtractSections(SectionKeys, text, sectionBody), pd);
      var sections := DefaultSections(found, version, pd);
      var pluginUri := Header(pd, "PluginURI");
      Details(Info(
        name := FirstCapture(text, "=== ", " ===").GetOr(Header(pd, "Name")),
        slug := u.pluginSlug,
        version := version,
        author := Header(pd, "Author"),
        authorProfile := Header(pd, "AuthorURI"),
        requiresWp := FirstCapture(text, "Requires at least: ", "\n").GetOr(RequiresDefault),
        tested := FirstCapture(text, "Tested up to: ", "\n").GetOr(blogVersion),
        requiresPhp := FirstCapture(text, "Requires PHP: ", "\n").GetOr(RequiresPhpDefault),
        lastUpdated := today,
        sections := sections,
        contributors := HeaderListOf(text, "Contributors: "),
        tags := HeaderListOf(text, "Tags: "),
        homepage := if PhpEmpty(pluginUri) then u.repositoryUrl else pluginUri,
        downloadLink := u.repositoryUrl + "/archive/refs/heads/" + u.branch + ".zip",
        external := true))
  }

  /** A readme line "Requires PHP: 8.1" overrides the default; without the label the default stays. */
  lemma HookReadsRequiresPhp<R>(u: Updater, result: R, pd: PluginData, pre: string, v: string, rest: string,
                                sectionBody: (string, string) -> Option<string>, blogVersion: string,
                                today: string)
    requires '\n' !in v
    requires forall p :: 0 <= p < |pre| ==> !At(pre + "Requires PHP: " + v + "\n" + rest, p, "Requires PHP: ")
    ensures var a := PluginInfoHook(u, result, "plugin_information", Some(u.pluginSlug), pd,
                                    Some(pre + "Requires PHP: " + v + "\n" + rest), sectionBody, blogVersion, today);
      a.Details? && a.info.requiresPhp == v
  {
    HeaderLine(pre, "Requires PHP: ", v, rest);
  }

  /** Without a "Requires at least: " line the minimum WordPress version is 5.0. */
  lemma HookDefaultsRequires<R>(u: Updater, result: R, pd: PluginData, readme: string,
                                sectionBody: (string, string) -> Option<string>, blogVersion: string,
                                today: string)
    requires forall p :: 0 <= p <= |readme| ==> !At(readme, p, "Requires at least: ")
    ensures var a := PluginInfoHook(u, result, "plugin_information", Some(u.pluginSlug), pd, Some(readme),
                                    sectionBody, blogVersion, today);
      a.Details? && a.info.requiresWp == RequiresDefault
  {
  }

  /** A "Contributors: " line is split at commas and each name trimmed. */
  lemma HookSplitsContributors<R>(u: Updater, result: R, pd: PluginData, pre: string, names: seq<string>,
                                  rest: string, sectionBody: (string, string) -> Option<string>,
                                  blogVersion: string, today: string)
    requires |names| >= 1 && NoneContains(names, ',') && NoneContains(names, '\n')
    requires forall p :: 0 <= p < |pre| ==>
      !At(pre + "Contributors: " + Join(names, ',') + "\n" + rest, p, "Contributors: ")
    ensures var a := PluginInfoHook(u, result, "plugin_information", Some(u.pluginSlug), pd,
                                    Some(pre + "Contributors: " + Join(names, ',') + "\n" + rest), sectionBody,
                                    blogVersion, today);
      a.Details? && a.info.contributors == Some(seq(|names|, i requires 0 <= i < |names| => Trim(names[i])))
  {
    var readme := pre + "Contributors: " + Join(names, ',') + "\n" + rest;
    ContributorsLine(pre, names, rest);
    var a := PluginInfoHook(u, result, "plugin_information", Some(u.pluginSlug), pd, Some(readme), sectionBody,
                            blogVersion, today);
    assert a.info.contributors == HeaderListOf(readme, "Contributors: ");
  }

  lemma ContributorsLine(pre: string, names: seq<string>, rest: string)
    requires |names| >= 1 && NoneContains(names, ',') && NoneContains(names, '\n')
    requires forall p :: 0 <= p < |pre| ==>
      !At(pre + "Contributors: " + Join(names, ',') + "\n" + rest, p, "Contributors: ")
    ensures HeaderListOf(pre + "Contributors: " + Join(names, ',') + "\n" + rest, "Contributors: ") ==
      Some(seq(|names|, i requires 0 <= i < |names| => Trim(names[i])))
  {
    JoinKeepsOut(names, '\n', ',');
    HeaderLine(pre, "Contributors: ", Join(names, ','), rest);
    HeaderListOfJoin(names);
  }

  /** Joining pieces that lack a character `c` with a separator other than `c` gives a string without `c`. */
  lemma {:induction false} JoinKeepsOut(parts: seq<string>, c: char, sep: char)
    requires |parts| >= 1 && NoneContains(parts, c) && c != sep
    ensures c !in Join(parts, sep)
    decreases |parts|
  {
    if |parts| > 1 {
      JoinKeepsOut(parts[1..], c, sep);
      var j := parts[0] + [sep] + Join(parts[1..], sep);
      assert forall k :: 0 <= k < |j| ==>
        j[k] == (if k < |parts[0]| then parts[0][k] else if k == |parts[0]| then sep
                 else Join(parts[1..], sep)[k - |parts[0]| - 1]);
    }
  }
}
