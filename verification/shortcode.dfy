/**
 * The decisions of the `[usgs_stream_gage]` shortcode (USGS_Stream_Gage_Shortcode):
 * attribute defaults, the guard on the id, the lookup of the configured
 * site, the early exit on a current-data error, which historical periods are
 * fetched and how their tabs are labelled and ordered. The markup itself is
 * not modelled; `Page` records what the markup is built from.
 */
module Shortcode {
  import opened Base
  import opened Transients
  import opened UsgsTypes
  import opened UsgsApi
  import opened Admin

  // ---------------------------------------------------------------------------
  // Attributes
  // ---------------------------------------------------------------------------

  datatype Atts = Atts(id: string, showDischarge: string, showGageHeight: string,
                       show24h: string, show7d: string, show30d: string, show1y: string)

  const DefaultAtts := Atts("", "yes", "yes", "yes", "yes", "yes", "yes")

  function AttOr(user: map<string, string>, key: string, default: string): string {
    if key in user then user[key] else default
  }

  /** The attribute names the shortcode declares. */
  predicate Declared(key: string) {
    key in {"id", "show_discharge", "show_gage_height", "show_24h", "show_7d", "show_30d", "show_1y"}
  }

  /** The value an `Atts` holds for a declared attribute name. */
  function AttOf(a: Atts, key: string): string
    requires Declared(key)
  {
    match key
    case "id" => a.id
    case "show_discharge" => a.showDischarge
    case "show_gage_height" => a.showGageHeight
    case "show_24h" => a.show24h
    case "show_7d" => a.show7d
    case "show_30d" => a.show30d
    case _ => a.show1y
  }

  /** `shortcode_atts`: every declared attribute takes the user's value when given, else its default. */
  function ShortcodeAtts(user: map<string, string>): (a: Atts)
    ensures forall k :: Declared(k) && k in user ==> AttOf(a, k) == user[k]
    ensures forall k :: Declared(k) && k !in user ==> AttOf(a, k) == AttOf(DefaultAtts, k)
    ensures "id" !in user ==> a.id == ""
    ensures forall k :: Declared(k) && k != "id" && k !in user ==> AttOf(a, k) == "yes"
  {
    Atts(AttOr(user, "id", DefaultAtts.id),
         AttOr(user, "show_discharge", DefaultAtts.showDischarge),
         AttOr(user, "show_gage_height", DefaultAtts.showGageHeight),
         AttOr(user, "show_24h", DefaultAtts.show24h),
         AttOr(user, "show_7d", DefaultAtts.show7d),
         AttOr(user, "show_30d", DefaultAtts.show30d),
         AttOr(user, "show_1y", DefaultAtts.show1y))
  }

  /** The seven names cover every field, so the contract of `ShortcodeAtts` fixes its result. */
  lemma AttsByName(a: Atts, b: Atts)
    requires forall k :: Declared(k) ==> AttOf(a, k) == AttOf(b, k)
    ensures a == b
  {
    assert AttOf(a, "id") == AttOf(b, "id");
    assert AttOf(a, "show_discharge") == AttOf(b, "show_discharge");
    assert AttOf(a, "show_gage_height") == AttOf(b, "show_gage_height");
    assert AttOf(a, "show_24h") == AttOf(b, "show_24h");
    assert AttOf(a, "show_7d") == AttOf(b, "show_7d");
    assert AttOf(a, "show_30d") == AttOf(b, "show_30d");
    assert AttOf(a, "show_1y") == AttOf(b, "show_1y");
  }

  /** Undeclared attributes are ignored, and a bare shortcode gets every default. */
  lemma ShortcodeAttsIgnoresUndeclared(user: map<string, string>)
    ensures ShortcodeAtts(user) == ShortcodeAtts(map k | k in user && Declared(k) :: user[k])
    ensures ShortcodeAtts(map[]) == DefaultAtts
  {
  }

  // ---------------------------------------------------------------------------
  // Periods and labels
  // ---------------------------------------------------------------------------

  /** Position of a period in the fixed tab order 24h, 7d, 30d, 1y. */
  function PeriodRank(p: Period): nat {
    match p
    case Hours24 => 0
    case Days7 => 1
    case Days30 => 2
    case Year1 => 3
  }

  /** The flag that switches a period's tab on. */
  function ShowFlag(a: Atts, p: Period): string {
    match p
    case Hours24 => a.show24h
    case Days7 => a.show7d
    case Days30 => a.show30d
    case Year1 => a.show1y
  }

  function OnlyIf(flag: string, p: Period): seq<Period> {
    if flag == "yes" then [p] else []
  }

  /** The periods shown: those whose flag is exactly "yes", in the fixed tab order. */
  function PeriodsFor(a: Atts): (ps: seq<Period>)
    ensures forall p :: p in ps <==> ShowFlag(a, p) == "yes"
    ensures forall i, j :: 0 <= i < j < |ps| ==> PeriodRank(ps[i]) < PeriodRank(ps[j])
  {
    OnlyIf(a.show24h, Hours24) + OnlyIf(a.show7d, Days7) + OnlyIf(a.show30d, Days30) + OnlyIf(a.show1y, Year1)
  }

  /** With every flag at its default all four tabs appear, and a flag like "Yes" or "1" hides its tab. */
  lemma PeriodsForExamples()
    ensures PeriodsFor(DefaultAtts) == [Hours24, Days7, Days30, Year1]
    ensures PeriodsFor(DefaultAtts.(show7d := "Yes", show1y := "1")) == [Hours24, Days30]
  {
  }

  /** `get_period_label`. */
  function PeriodLabel(code: string): (text: string)
    ensures ParsePeriod(code).None? ==> text == UcFirst(code)
  {
    if code == "24h" then "Last 24 Hours"
    else if code == "7d" then "Last 7 Days"
    else if code == "30d" then "Last 30 Days"
    else if code == "1y" then "Last Year"
    else UcFirst(code)
  }

  /** The four periods have four different labels, none of them the fallback capitalisation of the code. */
  lemma PeriodLabelsDistinct(p: Period, q: Period)
    ensures p != q ==> PeriodLabel(PeriodCode(p)) != PeriodLabel(PeriodCode(q))
    ensures PeriodLabel(PeriodCode(p)) != UcFirst(PeriodCode(p))
  {
    var c := PeriodCode(p);
    assert |UcFirst(c)| == |c| <= 3;
  }

  // ---------------------------------------------------------------------------
  // Site lookup
  // ---------------------------------------------------------------------------

  /** The position of the first configured site whose id is strictly the string `id`. */
  function FindSite(sites: seq<SiteEntry>, id: string): (r: Option<nat>)
    ensures r.Some? ==> r.value < |sites| && Field(sites[r.value], "id") == Str(id)
    ensures r.Some? ==> forall j :: 0 <= j < r.value ==> Field(sites[j], "id") != Str(id)
    ensures r.None? ==> forall j :: 0 <= j < |sites| ==> Field(sites[j], "id") != Str(id)
  {
    if |sites| == 0 then None
    else if Field(sites[0], "id") == Str(id) then Some(0)
    else
      match FindSite(sites[1..], id)
      case None => None
      case Some(i) => Some(i + 1)
  }

  // ---------------------------------------------------------------------------
  // render_shortcode
  // ---------------------------------------------------------------------------

  /** One historical tab: its period, caption, whether it starts active (and visible), and its data. */
  datatype Tab = Tab(period: Period, caption: string, active: bool, data: Historical)

  /** What the shortcode renders. */
  datatype Page =
    | NoIdError
    | NotFoundError(id: string)
    | CurrentError(message: string)
    | Panel(site: SiteEntry, current: CurrentData, showDischarge: bool, showGageHeight: bool, tabs: seq<Tab>)

  /** The result of a rendering, the state after it, and every upstream request, in order. */
  datatype Rendered = Rendered(page: Page, state: State, sent: seq<Request>)

  function SentList(sent: Option<Request>): (r: seq<Request>)
    ensures |r| <= 1
  {
    match sent
    case None => []
    case Some(req) => [req]
  }

  datatype Fetched = Fetched(results: seq<Historical>, state: State, sent: seq<Request>)

  /** `get_historical_data` for each period in turn, each call seeing the state the previous one left. */
  function FetchPeriods(st: State, env: Env, siteNumber: string, ps: seq<Period>, fetch: Request -> Reply)
    : (f: Fetched)
    ensures |f.results| == |ps| && |f.sent| <= |ps|
    ensures f.state.validation == st.validation && f.state.current == st.current
    decreases |ps|
  {
    if |ps| == 0 then Fetched([], st, [])
    else
      var o := GetHistoricalData(st, env, siteNumber, PeriodCode(ps[0]), fetch);
      var rest := FetchPeriods(o.state, env, siteNumber, ps[1..], fetch);
      Fetched([o.result] + rest.results, rest.state, SentList(o.sent) + rest.sent)
  }

  /** With the cache coherent, every data result belongs to the period in the same position. */
  lemma {:induction false} FetchPeriodsMatchesPeriods(st: State, env: Env, siteNumber: string, ps: seq<Period>,
                                                      fetch: Request -> Reply)
    requires HistoricalCoherent(st, env, siteNumber)
    ensures var f := FetchPeriods(st, env, siteNumber, ps, fetch);
      && HistoricalCoherent(f.state, env, siteNumber)
      && forall k :: 0 <= k < |ps| && f.results[k].Historical? ==> f.results[k].period == ps[k]
    decreases |ps|
  {
    if |ps| > 0 {
      var o := GetHistoricalData(st, env, siteNumber, PeriodCode(ps[0]), fetch);
      GetHistoricalDataCoherent(st, env, siteNumber, ps[0], fetch);
      FetchPeriodsMatchesPeriods(o.state, env, siteNumber, ps[1..], fetch);
      var rest := FetchPeriods(o.state, env, siteNumber, ps[1..], fetch);
      var f := FetchPeriods(st, env, siteNumber, ps, fetch);
      forall k | 0 <= k < |ps| && f.results[k].Historical? ensures f.results[k].period == ps[k] {
        if k > 0 {
          assert f.results[k] == rest.results[k - 1] && ps[k] == ps[1..][k - 1];
        }
      }
    }
  }

  /** Every period cached. */
  predicate WarmFor(st: State, env: Env, siteNumber: string, ps: seq<Period>) {
    forall k :: 0 <= k < |ps| ==> HistoricalHit(st, env, siteNumber, ps[k])
  }

  /** With every period cached, nothing is requested, nothing changes, and each result is the cached value. */
  lemma {:induction false} WarmPeriodsServedFromCache(st: State, env: Env, siteNumber: string, ps: seq<Period>,
                                                      fetch: Request -> Reply)
    requires WarmFor(st, env, siteNumber, ps)
    ensures var f := FetchPeriods(st, env, siteNumber, ps, fetch);
      && f.sent == [] && f.state == st
      && forall k :: 0 <= k < |ps| ==> f.results[k] == Get(st.historical, HistoricalKey(env, ps[k], siteNumber), env.now).value
    decreases |ps|
  {
    if |ps| > 0 {
      PeriodCodeRoundTrip(ps[0]);
      assert HistoricalHit(st, env, siteNumber, ps[0]);
      assert WarmFor(st, env, siteNumber, ps[1..]) by {
        forall k | 0 <= k < |ps[1..]| ensures HistoricalHit(st, env, siteNumber, ps[1..][k]) {
          assert ps[1..][k] == ps[k + 1];
        }
      }
      WarmPeriodsServedFromCache(st, env, siteNumber, ps[1..], fetch);
      var rest := FetchPeriods(st, env, siteNumber, ps[1..], fetch);
      var f := FetchPeriods(st, env, siteNumber, ps, fetch);
      forall k | 0 < k < |ps|
        ensures f.results[k] == Get(st.historical, HistoricalKey(env, ps[k], siteNumber), env.now).value
      {
        assert f.results[k] == rest.results[k - 1] && ps[k] == ps[1..][k - 1];
      }
    }
  }

  function MakeTabs(ps: seq<Period>, data: seq<Historical>): (tabs: seq<Tab>)
    requires |data| == |ps|
    ensures |tabs| == |ps|
    ensures forall k :: 0 <= k < |tabs| ==>
              tabs[k] == Tab(ps[k], PeriodLabel(PeriodCode(ps[k])), k == 0, data[k])
  {
    seq(|ps|, k requires 0 <= k < |ps| => Tab(ps[k], PeriodLabel(PeriodCode(ps[k])), k == 0, data[k]))
  }

  /**
   * `render_shortcode`. `sites` is the `usgs_stream_gage_sites` option and
   * `strval` PHP's string conversion of a stored site number.
   */
  function RenderShortcode(st: State, env: Env, user: map<string, string>, sites: seq<SiteEntry>,
                           strval: Value -> string, fetch: Request -> Reply): (r: Rendered)
    // no id: nothing is looked up or fetched
    ensures PhpEmpty(ShortcodeAtts(user).id) ==> r == Rendered(NoIdError, st, [])
    // unknown id: nothing is fetched
    ensures !PhpEmpty(ShortcodeAtts(user).id) && FindSite(sites, ShortcodeAtts(user).id).None? ==>
              r == Rendered(NotFoundError(ShortcodeAtts(user).id), st, [])
    ensures !PhpEmpty(ShortcodeAtts(user).id) && FindSite(sites, ShortcodeAtts(user).id).Some? ==>
              var a := ShortcodeAtts(user);
              var site := sites[FindSite(sites, a.id).value];
              var n := strval(Field(site, "site_number"));
              var c := GetCurrentData(st, env, n, fetch);
              // a current-data error ends the rendering before any historical request
              && (c.result.CurrentFailed? ==> r == Rendered(CurrentError(c.result.message), c.state, SentList(c.sent)))
              && (c.result.Current? ==>
                    var f := FetchPeriods(c.state, env, n, PeriodsFor(a), fetch);
                    && r.page == Panel(site, c.result, a.showDischarge == "yes", a.showGageHeight == "yes",
                                       MakeTabs(PeriodsFor(a), f.results))
                    && r.state == f.state
                    && r.sent == SentList(c.sent) + f.sent)
    // the panel shows one tab per shown period, in order, with its label; only the first is active
    ensures r.page.Panel? ==>
              var ps := PeriodsFor(ShortcodeAtts(user));
              && |r.page.tabs| == |ps|
              && (forall k :: 0 <= k < |ps| ==>
                    r.page.tabs[k].period == ps[k] && r.page.tabs[k].caption == PeriodLabel(PeriodCode(ps[k])))
              && (forall k :: 0 <= k < |ps| ==> (r.page.tabs[k].active <==> k == 0))
    ensures r.state.validation == st.validation
  {
    var a := ShortcodeAtts(user);
    if PhpEmpty(a.id) then Rendered(NoIdError, st, [])
    else
      match FindSite(sites, a.id)
      case None => Rendered(NotFoundError(a.id), st, [])
      case Some(i) =>
        var site := sites[i];
        var n := strval(Field(site, "site_number"));
        var c := GetCurrentData(st, env, n, fetch);
        if c.result.CurrentFailed? then Rendered(CurrentError(c.result.message), c.state, SentList(c.sent))
        else
          var ps := PeriodsFor(a);
          var f := FetchPeriods(c.state, env, n, ps, fetch);
          Rendered(Panel(site, c.result, a.showDischarge == "yes", a.showGageHeight == "yes", MakeTabs(ps, f.results)),
                   f.state, SentList(c.sent) + f.sent)
  }

  // ---------------------------------------------------------------------------
  // Requests on a cold cache
  // ---------------------------------------------------------------------------

  /** No period in `ps` has a live historical entry for this site. */
  predicate ColdFor(st: State, env: Env, siteNumber: string, ps: seq<Period>) {
    forall k :: 0 <= k < |ps| ==> !HistoricalHit(st, env, siteNumber, ps[k])
  }

  function HistoricalRequests(env: Env, siteNumber: string, ps: seq<Period>): (reqs: seq<Request>)
    ensures |reqs| == |ps|
    ensures forall k :: 0 <= k < |ps| ==> reqs[k] == HistoricalRequest(env, siteNumber, ps[k])
  {
    seq(|ps|, k requires 0 <= k < |ps| => HistoricalRequest(env, siteNumber, ps[k]))
  }

  /** With nothing cached, each period of a duplicate-free list is fetched upstream, in list order. */
  lemma {:induction false} ColdPeriodsAllFetched(st: State, env: Env, siteNumber: string, ps: seq<Period>,
                                                 fetch: Request -> Reply)
    requires ColdFor(st, env, siteNumber, ps)
    requires forall i, j :: 0 <= i < j < |ps| ==> ps[i] != ps[j]
    ensures FetchPeriods(st, env, siteNumber, ps, fetch).sent == HistoricalRequests(env, siteNumber, ps)
    decreases |ps|
  {
    if |ps| > 0 {
      var o := GetHistoricalData(st, env, siteNumber, PeriodCode(ps[0]), fetch);
      FirstColdFetch(st, env, siteNumber, ps, fetch);
      ColdPeriodsAllFetched(o.state, env, siteNumber, ps[1..], fetch);
      HistoricalRequestsCons(env, siteNumber, ps);
    }
  }

  /** The first cold period is requested upstream, and the rest of the list stays cold. */
  lemma FirstColdFetch(st: State, env: Env, siteNumber: string, ps: seq<Period>, fetch: Request -> Reply)
    requires |ps| > 0 && ColdFor(st, env, siteNumber, ps)
    requires forall i, j :: 0 <= i < j < |ps| ==> ps[i] != ps[j]
    ensures var o := GetHistoricalData(st, env, siteNumber, PeriodCode(ps[0]), fetch);
      o.sent == Some(HistoricalRequest(env, siteNumber, ps[0])) && ColdFor(o.state, env, siteNumber, ps[1..])
  {
    PeriodCodeRoundTrip(ps[0]);
    var o := GetHistoricalData(st, env, siteNumber, PeriodCode(ps[0]), fetch);
    assert !HistoricalHit(st, env, siteNumber, ps[0]);
    forall k | 0 <= k < |ps[1..]|
      ensures !HistoricalHit(o.state, env, siteNumber, ps[1..][k])
    {
      KeyFamiliesDisjoint(env, siteNumber, siteNumber, ps[1..][k], ps[0]);
      assert !HistoricalHit(st, env, siteNumber, ps[k + 1]);
    }
  }

  lemma HistoricalRequestsCons(env: Env, siteNumber: string, ps: seq<Period>)
    requires |ps| > 0
    ensures HistoricalRequests(env, siteNumber, ps)
            == [HistoricalRequest(env, siteNumber, ps[0])] + HistoricalRequests(env, siteNumber, ps[1..])
  {
  }

  /**
   * A shortcode rendered on a cold cache for a site whose current data
   * arrives sends exactly one current-data request and then one historical
   * request per shown period, in tab order.
   */
  lemma ColdRenderRequests(st: State, env: Env, user: map<string, string>, sites: seq<SiteEntry>,
                           strval: Value -> string, fetch: Request -> Reply)
    requires !PhpEmpty(ShortcodeAtts(user).id)
    requires FindSite(sites, ShortcodeAtts(user).id).Some?
    requires var n := strval(Field(sites[FindSite(sites, ShortcodeAtts(user).id).value], "site_number"));
      && !CurrentHit(st, env, n)
      && ColdFor(st, env, n, PeriodsFor(ShortcodeAtts(user)))
      && fetch(CurrentRequest(n)).Http?
    ensures var n := strval(Field(sites[FindSite(sites, ShortcodeAtts(user).id).value], "site_number"));
      RenderShortcode(st, env, user, sites, strval, fetch).sent
      == [CurrentRequest(n)] + HistoricalRequests(env, n, PeriodsFor(ShortcodeAtts(user)))
  {
    var a := ShortcodeAtts(user);
    var n := strval(Field(sites[FindSite(sites, a.id).value], "site_number"));
    var c := GetCurrentData(st, env, n, fetch);
    var ps := PeriodsFor(a);
    assert c.state.historical == st.historical;
    assert ColdFor(c.state, env, n, ps);
    forall i, j | 0 <= i < j < |ps| ensures ps[i] != ps[j] {
      assert PeriodRank(ps[i]) < PeriodRank(ps[j]);
    }
    ColdPeriodsAllFetched(c.state, env, n, ps, fetch);
  }
}
