/**
 * The four upstream operations of USGS_Stream_Gage_API. Each takes the
 * threaded state (transient caches and diagnostic log), the environment,
 * its arguments and `fetch`, the upstream service seen as a function from
 * request to reply. Each returns its result, the new state and the request
 * it sent, if any.
 */
module UsgsApi {
  import opened Base
  import opened Transients
  import opened Logger
  import opened UsgsTypes
  import opened Extrema

  // ---------------------------------------------------------------------------
  // Requests
  // ---------------------------------------------------------------------------

  function ValidationRequest(siteNumber: string): Request {
    Request(SiteServiceUrl, [("format", "json"), ("sites", siteNumber), ("siteStatus", "active")])
  }

  function SearchRequest(env: Env, name: string): Request {
    Request(SiteServiceUrl, [("format", "json"), ("siteNameLike", env.urlencode(name)),
                             ("siteStatus", "active"), ("siteType", "ST"), ("hasDataTypeCd", "dv")])
  }

  function CurrentRequest(siteNumber: string): Request {
    Request(IvServiceUrl, [("format", "json"), ("sites", siteNumber),
                           ("parameterCd", "00060,00065"), ("siteStatus", "active")])
  }

  /** The historical query: its window ends on the call date and starts one period earlier. */
  function HistoricalRequest(env: Env, siteNumber: string, p: Period): (req: Request)
    ensures req.endpoint == IvServiceUrl
    ensures ("startDT", env.dateOf(env.periodBefore(p, env.now))) in req.args
    ensures ("endDT", env.dateOf(env.now)) in req.args
    ensures ("sites", siteNumber) in req.args
  {
    Request(IvServiceUrl, [("format", "json"), ("sites", siteNumber),
                           ("startDT", env.dateOf(env.periodBefore(p, env.now))),
                           ("endDT", env.dateOf(env.now)),
                           ("parameterCd", "00060,00065"), ("siteStatus", "active")])
  }

  /** `log_response` for an HTTP reply. */
  function LogReply(log: Log, now: int, endpoint: string, reply: Reply): Log
    requires reply.Http?
  {
    RecordResponse(log, now, endpoint, reply.status, reply.raw, reply.isJson, [("has_data", Flag(true))])
  }

  // ---------------------------------------------------------------------------
  // validate_site
  // ---------------------------------------------------------------------------

  /** The validation cache holds a live, non-false entry for this key: the only case that skips the request. */
  predicate ValidationHit(st: State, env: Env, siteNumber: string) {
    var cached := Get(st.validation, ValidationKey(env, siteNumber), env.now);
    cached.Some? && cached.value.Valid?
  }

  /** The site a successful validation reports: the number asked for, the rest from the first series. */
  function SiteFromSeries(siteNumber: string, first: Series): Site {
    Site(siteNumber, first.sourceInfo.siteName, first.sourceInfo.latitude, first.sourceInfo.longitude)
  }

  function ValidateSite(st: State, env: Env, siteNumber: string, fetch: Request -> Reply): (o: Outcome<Validation>)
    // a live site entry answers without a request; a stored `false` does not
    ensures o.sent.None? <==> ValidationHit(st, env, siteNumber)
    ensures ValidationHit(st, env, siteNumber) ==>
              o.result == Get(st.validation, ValidationKey(env, siteNumber), env.now).value &&
              o.state.validation == st.validation
    ensures o.sent.Some? ==> o.sent.value == ValidationRequest(siteNumber)
    ensures o.sent.Some? ==> ValidatedUpstream(st, env, siteNumber, fetch(ValidationRequest(siteNumber)), o)
    ensures o.state.current == st.current && o.state.historical == st.historical
    ensures 1 <= |o.state.log| <= MaxLogs
  {
    var now := env.now;
    var log1 := Record(st.log, now, "Validating USGS site",
                       map["site_number" := Text(siteNumber), "method" := Text("validate_site")], LevelInfo);
    var key := ValidationKey(env, siteNumber);
    var cached := Get(st.validation, key, now);
    if cached.Some? && cached.value != False then
      var log2 := Record(log1, now, "Using cached validation data",
                         map["site_number" := Text(siteNumber), "cache_key" := Text(key)], LevelInfo);
      Outcome(cached.value, st.(log := log2), None)
    else
      RequestValidation(st, env, siteNumber, log1, fetch)
  }

  /**
   * What a validation request does with the reply: a transport failure is
   * `false`, uncached; no time series is `false`, cached for a day; a
   * series gives the site (number as asked, name and coordinates from the
   * first series), cached for a day.
   */
  ghost predicate ValidatedUpstream(st: State, env: Env, siteNumber: string, reply: Reply, o: Outcome<Validation>) {
    var key := ValidationKey(env, siteNumber);
    && (reply.TransportError? ==> o.result == False && o.state.validation == st.validation)
    && (reply.Http? && |reply.body.timeSeries| == 0 ==>
          o.result == False && o.state.validation == Set(st.validation, key, False, ValidationTtl, env.now))
    && (reply.Http? && |reply.body.timeSeries| > 0 ==>
          && o.result == Valid(SiteFromSeries(siteNumber, reply.body.timeSeries[0]))
          && o.result.site.siteNumber == siteNumber
          && o.state.validation == Set(st.validation, key, o.result, ValidationTtl, env.now))
  }

  /** The cache-miss half of `validate_site`: one request, its reply logged and, unless it failed, cached. */
  function RequestValidation(st: State, env: Env, siteNumber: string, log1: Log, fetch: Request -> Reply)
    : (o: Outcome<Validation>)
    ensures o.sent == Some(ValidationRequest(siteNumber))
    ensures ValidatedUpstream(st, env, siteNumber, fetch(ValidationRequest(siteNumber)), o)
    ensures o.state.current == st.current && o.state.historical == st.historical
    ensures 1 <= |o.state.log| <= MaxLogs
  {
    var now := env.now;
    var key := ValidationKey(env, siteNumber);
    var req := ValidationRequest(siteNumber);
    var log2 := RecordRequest(log1, now, SiteServiceUrl);
    var reply := fetch(req);
    if reply.TransportError? then
      var log3 := RecordError(log2, now, "API Error validating site", reply.message);
      Outcome(False, st.(log := log3), Some(req))
    else
      var log3 := LogReply(log2, now, SiteServiceUrl, reply);
      var series := reply.body.timeSeries;
      if |series| == 0 then
        var log4 := Record(log3, now, "Invalid USGS site",
                           map["site_number" := Text(siteNumber), "response" := Text("No time series data found")],
                           LevelWarning);
        Outcome(False, st.(validation := Set(st.validation, key, False, ValidationTtl, now), log := log4), Some(req))
      else
        var site := SiteFromSeries(siteNumber, series[0]);
        var log4 := Record(log3, now, "USGS site validated successfully",
                           map["site_number" := Text(siteNumber), "site_name" := Text(site.siteName)], LevelInfo);
        Outcome(Valid(site), st.(validation := Set(st.validation, key, Valid(site), ValidationTtl, now), log := log4),
                Some(req))
  }

  /**
   * An unknown site is cached as `false`, but the lookup reads a stored
   * `false` as a miss: asking again, at the same moment or later, goes
   * upstream again. The same holds after a transport failure.
   */
  lemma FalseNeverShortCircuits(st: State, env: Env, siteNumber: string,
                                fetch: Request -> Reply, later: int, fetch2: Request -> Reply)
    requires ValidateSite(st, env, siteNumber, fetch).sent.Some?
    requires ValidateSite(st, env, siteNumber, fetch).result == False
    requires later >= env.now
    ensures ValidateSite(ValidateSite(st, env, siteNumber, fetch).state, env.(now := later), siteNumber, fetch2).sent
            == Some(ValidationRequest(siteNumber))
  {
    var o := ValidateSite(st, env, siteNumber, fetch);
    var env2 := env.(now := later);
    assert ValidationKey(env2, siteNumber) == ValidationKey(env, siteNumber);
    var key := ValidationKey(env, siteNumber);
    if key in st.validation && st.validation[key].value.Valid? {
      assert env.now >= st.validation[key].expires;
    }
  }

  /** A site validated upstream is served from the cache, with no request, for the next 24 hours. */
  lemma ValidSiteServedFromCache(st: State, env: Env, siteNumber: string,
                                 fetch: Request -> Reply, later: int, fetch2: Request -> Reply)
    requires ValidateSite(st, env, siteNumber, fetch).sent.Some?
    requires ValidateSite(st, env, siteNumber, fetch).result.Valid?
    requires env.now <= later < env.now + ValidationTtl
    ensures var o := ValidateSite(st, env, siteNumber, fetch);
      var o2 := ValidateSite(o.state, env.(now := later), siteNumber, fetch2);
      o2.sent.None? && o2.result == o.result
  {
    var env2 := env.(now := later);
    assert ValidationKey(env2, siteNumber) == ValidationKey(env, siteNumber);
  }

  // ---------------------------------------------------------------------------
  // search_sites_by_name
  // ---------------------------------------------------------------------------

  /** One search record: skipped unless it has a site code and a name; missing coordinates become null. */
  function ParseSiteRecord(rec: SiteRecord): (hits: seq<SearchHit>)
    ensures |hits| == (if rec.siteCode.Some? && rec.siteName.Some? then 1 else 0)
  {
    if rec.siteCode.None? || rec.siteName.None? then []
    else [SearchHit(rec.siteCode.value, rec.siteName.value, rec.latitude, rec.longitude)]
  }

  function ParseSites(records: seq<SiteRecord>): (hits: seq<SearchHit>)
    ensures |hits| <= |records|
  {
    if |records| == 0 then [] else ParseSiteRecord(records[0]) + ParseSites(records[1..])
  }

  /** Parsing respects concatenation: the hits keep the records' order. */
  lemma {:induction false} ParseSitesAppend(a: seq<SiteRecord>, b: seq<SiteRecord>)
    ensures ParseSites(a + b) == ParseSites(a) + ParseSites(b)
    decreases |a|
  {
    if |a| == 0 {
      assert a + b == b;
    } else {
      assert (a + b)[1..] == a[1..] + b;
      ParseSitesAppend(a[1..], b);
    }
  }

  /** A record with code and name is kept with its coordinates as given, a missing one as null. */
  lemma ParseSitesKeepsCompleteRecord(before: seq<SiteRecord>, rec: SiteRecord, after: seq<SiteRecord>)
    requires rec.siteCode.Some? && rec.siteName.Some?
    ensures var hits := ParseSites(before + [rec] + after);
      var k := |ParseSites(before)|;
      k < |hits| &&
      hits[k] == SearchHit(rec.siteCode.value, rec.siteName.value, rec.latitude, rec.longitude)
  {
    ParseSitesAppend(before + [rec], after);
    ParseSitesAppend(before, [rec]);
  }

  /** A record lacking its code or its name contributes nothing. */
  lemma ParseSitesSkipsIncompleteRecord(before: seq<SiteRecord>, rec: SiteRecord, after: seq<SiteRecord>)
    requires rec.siteCode.None? || rec.siteName.None?
    ensures ParseSites(before + [rec] + after) == ParseSites(before + after)
  {
    ParseSitesAppend(before + [rec], after);
    ParseSitesAppend(before, [rec]);
    ParseSitesAppend(before, after);
  }

  function SearchSites(st: State, env: Env, name: string, fetch: Request -> Reply): (o: Outcome<seq<SearchHit>>)
    ensures o.sent == Some(SearchRequest(env, name))
    ensures fetch(SearchRequest(env, name)).TransportError? ==> o.result == []
    ensures fetch(SearchRequest(env, name)).Http? ==>
              o.result == ParseSites(fetch(SearchRequest(env, name)).body.sites)
    ensures fetch(SearchRequest(env, name)).Http? && |fetch(SearchRequest(env, name)).body.sites| == 0 ==>
              o.result == []
    ensures o.state.validation == st.validation && o.state.current == st.current &&
            o.state.historical == st.historical
    ensures 1 <= |o.state.log| <= MaxLogs
  {
    var now := env.now;
    var log1 := Record(st.log, now, "Searching for USGS sites",
                       map["search_term" := Text(name), "method" := Text("search_sites_by_name")], LevelInfo);
    var req := SearchRequest(env, name);
    var log2 := RecordRequest(log1, now, SiteServiceUrl);
    var reply := fetch(req);
    if reply.TransportError? then
      Outcome([], st.(log := RecordError(log2, now, "API Error searching sites", reply.message)), Some(req))
    else
      var log3 := Record(log2, now, "API Search Response (Raw)",
                         map["response_code" := Int(reply.status),
                             "response_body_preview" := Text(Prefix(reply.raw, 500))], LevelDebug);
      var log4 := LogReply(log3, now, SiteServiceUrl, reply);
      var records := reply.body.sites;
      if |records| > 0 then
        var log5 := Record(log4, now, "USGS API returned sites", map["count" := Int(|records|)], LevelDebug);
        var hits := ParseSites(records);
        var log6 := Record(log5, now, "USGS sites found", map["sites_found" := Int(|hits|)], LevelInfo);
        Outcome(hits, st.(log := log6), Some(req))
      else
        var log5 := Record(log4, now, "No USGS sites found", map["response_code" := Int(reply.status)], LevelWarning);
        Outcome([], st.(log := log5), Some(req))
  }

  // ---------------------------------------------------------------------------
  // get_current_data
  // ---------------------------------------------------------------------------

  /** `values[0].value[0].value`, or null when the series has no samples. */
  function FirstReading(s: Series): Option<Reading> {
    if |s.samples| == 0 then None else Some(s.samples[0].value)
  }

  /** One pass of the loop over `value.timeSeries`: a matching code overwrites reading and unit. */
  function ApplyCurrentSeries(acc: CurrentData, s: Series): CurrentData
    requires acc.Current?
  {
    var withDischarge := if s.code == DischargeCode
                         then acc.(discharge := FirstReading(s), dischargeUnit := Some(s.unit)) else acc;
    if s.code == GageHeightCode
    then withDischarge.(gageHeight := FirstReading(s), gageHeightUnit := Some(s.unit))
    else withDischarge
  }

  function FillCurrent(acc: CurrentData, series: seq<Series>): (r: CurrentData)
    requires acc.Current?
    ensures r.Current? && r.siteNumber == acc.siteNumber && r.timestamp == acc.timestamp
    decreases |series|
  {
    if |series| == 0 then acc else FillCurrent(ApplyCurrentSeries(acc, series[0]), series[1..])
  }

  /** The last series in `series` whose parameter code is `code`. */
  function LastWithCode(series: seq<Series>, code: string): (r: Option<Series>)
    ensures r.Some? ==> r.value in series && r.value.code == code
    ensures r.None? ==> forall k :: 0 <= k < |series| ==> series[k].code != code
  {
    if |series| == 0 then None
    else
      var later := LastWithCode(series[1..], code);
      if later.Some? then later
      else if series[0].code == code then Some(series[0])
      else None
  }

  /**
   * The current readings are those of the last series with each code: a
   * later series overwrites an earlier one, and a code no series carries
   * keeps the starting value.
   */
  lemma {:induction false} FillCurrentTakesLastSeries(acc: CurrentData, series: seq<Series>)
    requires acc.Current?
    ensures var r := FillCurrent(acc, series);
      && r.discharge == (match LastWithCode(series, DischargeCode)
                         case Some(s) => FirstReading(s) case None => acc.discharge)
      && r.dischargeUnit == (match LastWithCode(series, DischargeCode)
                             case Some(s) => Some(s.unit) case None => acc.dischargeUnit)
      && r.gageHeight == (match LastWithCode(series, GageHeightCode)
                          case Some(s) => FirstReading(s) case None => acc.gageHeight)
      && r.gageHeightUnit == (match LastWithCode(series, GageHeightCode)
                              case Some(s) => Some(s.unit) case None => acc.gageHeightUnit)
    decreases |series|
  {
    if |series| > 0 {
      FillCurrentTakesLastSeries(ApplyCurrentSeries(acc, series[0]), series[1..]);
    }
  }

  /** The result before any series is read: all readings and units null, `error` false. */
  function BlankCurrent(siteNumber: string, now: int): CurrentData {
    Current(siteNumber, now, None, None, None, None)
  }

  predicate CurrentHit(st: State, env: Env, siteNumber: string) {
    Get(st.current, CurrentKey(env, siteNumber), env.now).Some?
  }

  function GetCurrentData(st: State, env: Env, siteNumber: string, fetch: Request -> Reply): (o: Outcome<CurrentData>)
    ensures o.sent.None? <==> CurrentHit(st, env, siteNumber)
    // a cache hit returns the stored value and touches nothing, not even the log
    ensures CurrentHit(st, env, siteNumber) ==>
              o.result == Get(st.current, CurrentKey(env, siteNumber), env.now).value && o.state == st
    ensures o.sent.Some? ==> o.sent.value == CurrentRequest(siteNumber)
    // a transport failure is reported and not cached
    ensures o.sent.Some? && fetch(o.sent.value).TransportError? ==>
              o.result == CurrentFailed(fetch(o.sent.value).message) && o.state.current == st.current
    // otherwise the filled result is cached for 15 minutes, even when no series matched
    ensures o.sent.Some? && fetch(o.sent.value).Http? ==>
              o.result == FillCurrent(BlankCurrent(siteNumber, env.now), fetch(o.sent.value).body.timeSeries) &&
              o.state.current == Set(st.current, CurrentKey(env, siteNumber), o.result, CurrentTtl, env.now)
    ensures o.state.validation == st.validation && o.state.historical == st.historical
  {
    var now := env.now;
    var key := CurrentKey(env, siteNumber);
    var cached := Get(st.current, key, now);
    if cached.Some? then
      Outcome(cached.value, st, None)
    else
      var req := CurrentRequest(siteNumber);
      var log1 := RecordRequest(st.log, now, IvServiceUrl);
      var reply := fetch(req);
      if reply.TransportError? then
        Outcome(CurrentFailed(reply.message),
                st.(log := RecordError(log1, now, "API Error getting current data", reply.message)), Some(req))
      else
        var log2 := LogReply(log1, now, IvServiceUrl, reply);
        var result := FillCurrent(BlankCurrent(siteNumber, now), reply.body.timeSeries);
        Outcome(result, st.(current := Set(st.current, key, result, CurrentTtl, now), log := log2), Some(req))
  }

  // ---------------------------------------------------------------------------
  // get_historical_data
  // ---------------------------------------------------------------------------

  /** One pass of the loop over `value.timeSeries`: a series without samples is skipped. */
  function ApplyHistoricalSeries(acc: Historical, s: Series): Historical
    requires acc.Historical?
  {
    if |s.samples| == 0 then acc
    else
      var withDischarge :=
        if s.code == DischargeCode && |Retained(s.samples)| > 0
        then acc.(discharge := SeriesExtremes(s.samples, s.unit)) else acc;
      if s.code == GageHeightCode && |Retained(s.samples)| > 0
      then withDischarge.(gageHeight := SeriesExtremes(s.samples, s.unit))
      else withDischarge
  }

  function FillHistorical(acc: Historical, series: seq<Series>): (r: Historical)
    requires acc.Historical?
    ensures r.Historical? && r.siteNumber == acc.siteNumber && r.period == acc.period &&
            r.timestamp == acc.timestamp
    decreases |series|
  {
    if |series| == 0 then acc else FillHistorical(ApplyHistoricalSeries(acc, series[0]), series[1..])
  }

  /** The last series with parameter `code` that retains at least one reading. */
  function LastUsable(series: seq<Series>, code: string): (r: Option<Series>)
    ensures r.Some? ==> r.value in series && r.value.code == code && |Retained(r.value.samples)| > 0
    ensures r.None? ==> forall k :: 0 <= k < |series| ==>
                          series[k].code != code || |Retained(series[k].samples)| == 0
  {
    if |series| == 0 then None
    else
      var later := LastUsable(series[1..], code);
      if later.Some? then later
      else if series[0].code == code && |Retained(series[0].samples)| > 0 then Some(series[0])
      else None
  }

  function ExtremesOf(s: Option<Series>, fallback: Extremes): Extremes {
    match s
    case Some(x) => SeriesExtremes(x.samples, x.unit)
    case None => fallback
  }

  /**
   * Each parameter's block comes from the last series with that code that
   * retains a reading; series with no samples, or only gaps and zeros, never
   * overwrite an earlier block.
   */
  lemma {:induction false} FillHistoricalTakesLastUsableSeries(acc: Historical, series: seq<Series>)
    requires acc.Historical?
    ensures var r := FillHistorical(acc, series);
      && r.discharge == ExtremesOf(LastUsable(series, DischargeCode), acc.discharge)
      && r.gageHeight == ExtremesOf(LastUsable(series, GageHeightCode), acc.gageHeight)
    decreases |series|
  {
    if |series| > 0 {
      if |series[0].samples| == 0 {
        assert Retained(series[0].samples) == [];
      }
      FillHistoricalTakesLastUsableSeries(ApplyHistoricalSeries(acc, series[0]), series[1..]);
    }
  }

  function BlankHistorical(siteNumber: string, p: Period, now: int): Historical {
    Historical(siteNumber, p, now, NoExtremes, NoExtremes)
  }

  predicate HistoricalHit(st: State, env: Env, siteNumber: string, p: Period) {
    Get(st.historical, HistoricalKey(env, p, siteNumber), env.now).Some?
  }

  const InvalidPeriodMessage := "Invalid time period specified."

  function GetHistoricalData(st: State, env: Env, siteNumber: string, period: string,
                             fetch: Request -> Reply): (o: Outcome<Historical>)
    // an unknown period is refused before any cache read, cache write or request
    ensures ParsePeriod(period).None? ==>
              o.result == HistoricalFailed(InvalidPeriodMessage) && o.state == st && o.sent.None?
    ensures ParsePeriod(period).Some? ==>
              var p := ParsePeriod(period).value;
              && (o.sent.None? <==> HistoricalHit(st, env, siteNumber, p))
              && (HistoricalHit(st, env, siteNumber, p) ==>
                    o.result == Get(st.historical, HistoricalKey(env, p, siteNumber), env.now).value && o.state == st)
              && (o.sent.Some? ==> o.sent.value == HistoricalRequest(env, siteNumber, p))
              && (o.sent.Some? && fetch(o.sent.value).TransportError? ==>
                    o.result == HistoricalFailed(fetch(o.sent.value).message) && o.state.historical == st.historical)
              && (o.sent.Some? && fetch(o.sent.value).Http? ==>
                    o.result == FillHistorical(BlankHistorical(siteNumber, p, env.now),
                                               fetch(o.sent.value).body.timeSeries) &&
                    o.state.historical == Set(st.historical, HistoricalKey(env, p, siteNumber), o.result,
                                              HistoricalTtl(p), env.now))
    ensures o.state.validation == st.validation && o.state.current == st.current
  {
    match ParsePeriod(period)
    case None => Outcome(HistoricalFailed(InvalidPeriodMessage), st, None)
    case Some(p) =>
      var now := env.now;
      var key := HistoricalKey(env, p, siteNumber);
      var cached := Get(st.historical, key, now);
      if cached.Some? then
        Outcome(cached.value, st, None)
      else
        var req := HistoricalRequest(env, siteNumber, p);
        var log1 := RecordRequest(st.log, now, IvServiceUrl);
        var reply := fetch(req);
        if reply.TransportError? then
          Outcome(HistoricalFailed(reply.message),
                  st.(log := RecordError(log1, now, "API Error getting historical data", reply.message)), Some(req))
        else
          var log2 := LogReply(log1, now, IvServiceUrl, reply);
          var result := FillHistorical(BlankHistorical(siteNumber, p, now), reply.body.timeSeries);
          Outcome(result, st.(historical := Set(st.historical, key, result, HistoricalTtl(p), now), log := log2),
                  Some(req))
  }

  /** A reply with no usable series yields both blocks all-null with `error` false, and is cached. */
  lemma NoUsableSeriesGivesNullBlocks(st: State, env: Env, siteNumber: string, p: Period, fetch: Request -> Reply)
    requires !HistoricalHit(st, env, siteNumber, p)
    requires fetch(HistoricalRequest(env, siteNumber, p)).Http?
    requires forall k :: 0 <= k < |fetch(HistoricalRequest(env, siteNumber, p)).body.timeSeries| ==>
               |Retained(fetch(HistoricalRequest(env, siteNumber, p)).body.timeSeries[k].samples)| == 0
    ensures GetHistoricalData(st, env, siteNumber, PeriodCode(p), fetch).result
            == Historical(siteNumber, p, env.now, NoExtremes, NoExtremes)
  {
    PeriodCodeRoundTrip(p);
    var series := fetch(HistoricalRequest(env, siteNumber, p)).body.timeSeries;
    FillHistoricalTakesLastUsableSeries(BlankHistorical(siteNumber, p, env.now), series);
  }

  /** A cached historical value, if it is data, is data for the period `p` of its key. */
  predicate FitsPeriod(h: Option<Historical>, p: Period) {
    h.Some? && h.value.Historical? ==> h.value.period == p
  }

  /**
   * The historical cache of a site holds, under each period's key, only a
   * value computed for that period: what `get_historical_data` itself writes.
   */
  predicate HistoricalCoherent(st: State, env: Env, siteNumber: string) {
    forall p :: FitsPeriod(Get(st.historical, HistoricalKey(env, p, siteNumber), env.now), p)
  }

  /** `get_historical_data` keeps the cache coherent, and its data is for the period asked for. */
  lemma GetHistoricalDataCoherent(st: State, env: Env, siteNumber: string, p: Period, fetch: Request -> Reply)
    requires HistoricalCoherent(st, env, siteNumber)
    ensures var o := GetHistoricalData(st, env, siteNumber, PeriodCode(p), fetch);
      HistoricalCoherent(o.state, env, siteNumber) && (o.result.Historical? ==> o.result.period == p)
  {
    PeriodCodeRoundTrip(p);
    var o := GetHistoricalData(st, env, siteNumber, PeriodCode(p), fetch);
    assert FitsPeriod(Get(st.historical, HistoricalKey(env, p, siteNumber), env.now), p);
    if o.sent.Some? && fetch(o.sent.value).Http? {
      var key := HistoricalKey(env, p, siteNumber);
      forall q ensures FitsPeriod(Get(o.state.historical, HistoricalKey(env, q, siteNumber), env.now), q) {
        if q == p {
          GetAfterSet(st.historical, key, o.result, HistoricalTtl(p), env.now, env.now);
        } else {
          KeyFamiliesDisjoint(env, siteNumber, siteNumber, q, p);
          OtherKeysUntouched(st.historical, key, HistoricalKey(env, q, siteNumber), o.result,
                             HistoricalTtl(p), env.now, env.now);
          assert FitsPeriod(Get(st.historical, HistoricalKey(env, q, siteNumber), env.now), q);
        }
      }
    }
  }

  /** An empty historical cache is coherent. */
  lemma EmptyHistoricalCoherent(st: State, env: Env, siteNumber: string)
    requires st.historical == map[]
    ensures HistoricalCoherent(st, env, siteNumber)
  {
  }

  /** A well-formed reply that is not JSON carries no series, so both blocks stay all-null. */
  lemma NonJsonReplyGivesNullBlocks(st: State, env: Env, siteNumber: string, p: Period, fetch: Request -> Reply)
    requires !HistoricalHit(st, env, siteNumber, p)
    requires var reply := fetch(HistoricalRequest(env, siteNumber, p)); reply.Http? && !reply.isJson && WellFormedReply(reply)
    ensures GetHistoricalData(st, env, siteNumber, PeriodCode(p), fetch).result
            == Historical(siteNumber, p, env.now, NoExtremes, NoExtremes)
  {
    NoUsableSeriesGivesNullBlocks(st, env, siteNumber, p, fetch);
  }
}
