/**
 * Vocabulary of the USGS data layer (USGS_Stream_Gage_API): the decoded
 * upstream replies, the results each operation hands back, the cache keys
 * and lifetimes, and the state the operations thread through.
 *
 * An upstream reply is already decoded into typed records. A field the JSON
 * lacks is an empty sequence (`value.timeSeries`, `value.sites`) or `None`
 * (the optional fields of a site-search record).
 */
module UsgsTypes {
  import opened Base
  import opened Transients
  import opened Logger

  const IvServiceUrl := "https://waterservices.usgs.gov/nwis/iv/"
  const SiteServiceUrl := "https://waterservices.usgs.gov/nwis/site/"

  /** USGS parameter codes. */
  const DischargeCode := "00060"
  const GageHeightCode := "00065"

  // ---------------------------------------------------------------------------
  // Decoded upstream replies
  // ---------------------------------------------------------------------------

  /** One sample's `value` field: the empty string the service uses for gaps, or a number. */
  datatype Reading = Empty | Num(r: real)

  datatype Sample = Sample(value: Reading, dateTime: string)

  /** `sourceInfo` of a time series: site name and `geoLocation.geogLocation`. */
  datatype SourceInfo = SourceInfo(siteName: string, latitude: real, longitude: real)

  /**
   * One entry of `value.timeSeries`: its source metadata, the parameter code
   * `variable.variableCode[0].value`, the unit `variable.unit.unitCode` and
   * the samples `values[0].value`.
   */
  datatype Series = Series(sourceInfo: SourceInfo, code: string, unit: string, samples: seq<Sample>)

  /** One entry of `value.sites` in a site-search reply; every field may be missing. */
  datatype SiteRecord = SiteRecord(siteCode: Option<string>, siteName: Option<string>,
                                   latitude: Option<real>, longitude: Option<real>)

  datatype Body = Body(timeSeries: seq<Series>, sites: seq<SiteRecord>)

  /**
   * What `wp_remote_get` gave back: a transport error (`is_wp_error`), or an
   * HTTP reply with its status, raw body text, whether that text decodes to a
   * non-empty JSON value, and the decoded body.
   */
  datatype Reply =
    | TransportError(message: string)
    | Http(status: int, raw: string, isJson: bool, body: Body)

  /** A reply whose text is not a non-empty JSON value decodes to no series and no sites. */
  predicate WellFormedReply(r: Reply) {
    r.Http? && !r.isJson ==> r.body == Body([], [])
  }

  /** A query to the upstream service: endpoint and ordered query arguments. */
  datatype Request = Request(endpoint: string, args: seq<(string, string)>)

  // ---------------------------------------------------------------------------
  // Results
  // ---------------------------------------------------------------------------

  datatype Site = Site(siteNumber: string, siteName: string, latitude: real, longitude: real)

  /**
   * What `validate_site` returns: PHP `false` or the site array. `False`
   * covers both a transport failure and "no such site"; it is also the
   * value the validation cache stores for an unknown site.
   */
  datatype Validation = False | Valid(site: Site)

  /** One site-search hit; a missing coordinate is `None` (PHP null). */
  datatype SearchHit = SearchHit(siteNumber: string, siteName: string,
                                 latitude: Option<real>, longitude: Option<real>)

  /**
   * What `get_current_data` returns: `{error: true, message}` or the reading
   * array. A missing reading or unit is `None`; a series without samples
   * leaves its reading `None` but still sets the unit.
   */
  datatype CurrentData =
    | CurrentFailed(message: string)
    | Current(siteNumber: string, timestamp: int,
              discharge: Option<Reading>, dischargeUnit: Option<string>,
              gageHeight: Option<Reading>, gageHeightUnit: Option<string>)

  /**
   * High/low summary of one parameter. `NoExtremes` is the all-null block;
   * the timestamps start null and are filled by the scan over the samples.
   */
  datatype Extremes =
    | NoExtremes
    | Extremes(high: real, highAt: Option<string>, low: real, lowAt: Option<string>, unit: string)

  datatype Period = Hours24 | Days7 | Days30 | Year1

  datatype Historical =
    | HistoricalFailed(message: string)
    | Historical(siteNumber: string, period: Period, timestamp: int,
                 discharge: Extremes, gageHeight: Extremes)

  // ---------------------------------------------------------------------------
  // Periods, lifetimes and keys
  // ---------------------------------------------------------------------------

  function PeriodCode(p: Period): string {
    match p
    case Hours24 => "24h"
    case Days7 => "7d"
    case Days30 => "30d"
    case Year1 => "1y"
  }

  /** The `in_array($period, ['24h', '7d', '30d', '1y'])` check. */
  function ParsePeriod(s: string): (r: Option<Period>)
    ensures r.Some? ==> PeriodCode(r.value) == s
  {
    if s == "24h" then Some(Hours24)
    else if s == "7d" then Some(Days7)
    else if s == "30d" then Some(Days30)
    else if s == "1y" then Some(Year1)
    else None
  }

  lemma PeriodCodeRoundTrip(p: Period)
    ensures ParsePeriod(PeriodCode(p)) == Some(p)
  {
  }

  /** Cache lifetimes in seconds (the `$cache_expiration` table). */
  const ValidationTtl: nat := 86400
  const CurrentTtl: nat := 900

  function HistoricalTtl(p: Period): (ttl: nat)
    ensures 1800 <= ttl <= 14400
  {
    match p
    case Hours24 => 1800
    case Days7 => 3600
    case Days30 => 7200
    case Year1 => 14400
  }

  /** Longer windows are cached longer. */
  lemma HistoricalTtlGrowsWithWindow()
    ensures HistoricalTtl(Hours24) < HistoricalTtl(Days7) < HistoricalTtl(Days30) < HistoricalTtl(Year1)
    ensures CurrentTtl < HistoricalTtl(Hours24) && HistoricalTtl(Year1) < ValidationTtl
  {
  }

  /**
   * The host environment: the clock, and the WordPress/PHP helpers the model
   * does not interpret (`sanitize_key`, `urlencode`, `date('Y-m-d', t)`, and
   * the instant `strtotime` gives for "one period before t").
   */
  datatype Env = Env(now: int,
                     sanitizeKey: string -> string,
                     urlencode: string -> string,
                     dateOf: int -> string,
                     periodBefore: (Period, int) -> int)

  function ValidationKey(env: Env, siteNumber: string): string {
    "usgs_site_validation_" + env.sanitizeKey(siteNumber)
  }

  function CurrentKey(env: Env, siteNumber: string): string {
    "usgs_current_data_" + env.sanitizeKey(siteNumber)
  }

  function HistoricalKey(env: Env, p: Period, siteNumber: string): string {
    "usgs_" + PeriodCode(p) + "_data_" + env.sanitizeKey(siteNumber)
  }

  /**
   * The key families never collide, whatever `sanitize_key` returns: they
   * differ at index 5. This is why the model may keep one typed store per family.
   */
  lemma KeyFamiliesDisjoint(env: Env, a: string, b: string, p: Period, q: Period)
    ensures ValidationKey(env, a) != CurrentKey(env, b)
    ensures ValidationKey(env, a) != HistoricalKey(env, p, b)
    ensures CurrentKey(env, a) != HistoricalKey(env, p, b)
    ensures p != q ==> HistoricalKey(env, p, a) != HistoricalKey(env, q, b)
  {
    assert ValidationKey(env, a)[5] == 's';
    assert CurrentKey(env, a)[5] == 'c';
    assert HistoricalKey(env, p, b)[5] == PeriodCode(p)[0];
    assert HistoricalKey(env, p, a)[5] == PeriodCode(p)[0];
    assert HistoricalKey(env, q, b)[5] == PeriodCode(q)[0];
    assert p != q ==> PeriodCode(p)[0] != PeriodCode(q)[0];
  }

  /**
   * The transient caches (one per key family) and the diagnostic log, threaded
   * through every operation.
   */
  datatype State = State(validation: Store<Validation>,
                         current: Store<CurrentData>,
                         historical: Store<Historical>,
                         log: Log)

  /** An operation's result, the state after it, and the upstream request it sent (`None`: none). */
  datatype Outcome<T> = Outcome(result: T, state: State, sent: Option<Request>)
}
