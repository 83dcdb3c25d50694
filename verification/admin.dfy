/**
 * The two pieces of USGS_Stream_Gage_Admin with decisions in them: the
 * sanitiser WordPress runs on the `usgs_stream_gage_sites` option before it
 * is saved, and the outcome of the AJAX "validate a site number" request.
 */
module Admin {
  import opened Base
  import opened Transients
  import opened Logger
  import opened UsgsTypes
  import opened UsgsApi

  // ---------------------------------------------------------------------------
  // validate_sites_setting
  // ---------------------------------------------------------------------------

  /** A scalar of a submitted site entry: PHP null, a boolean, a string or a number. */
  datatype Value = Null | Bool(b: bool) | Str(s: string) | Number(r: real)

  /** PHP `empty()` on a scalar. */
  predicate EmptyValue(v: Value) {
    match v
    case Null => true
    case Bool(b) => !b
    case Str(s) => PhpEmpty(s)
    case Number(r) => r == 0.0
  }

  /** One submitted site: a PHP array from field name to scalar. */
  type SiteEntry = map<string, Value>

  /** `$site[$k]`, which reads as null when the key is absent. */
  function Field(e: SiteEntry, k: string): Value {
    if k in e then e[k] else Null
  }

  /** What the option sanitiser receives: something that is not an array, or a list of entries. */
  datatype Submitted = NotArray | Entries(entries: seq<SiteEntry>)

  /** Only the boolean `true` counts as validated; the form's string `"1"` does not. */
  predicate AlreadyValidated(e: SiteEntry) {
    Field(e, "is_validated") == Bool(true)
  }

  /** The sanitiser keeps an entry iff it has a site number and is either validated or validates now. */
  predicate Keeps(e: SiteEntry, validate: string -> Validation, strval: Value -> string) {
    !EmptyValue(Field(e, "site_number")) &&
    (AlreadyValidated(e) || validate(strval(Field(e, "site_number"))).Valid?)
  }

  /** The fields the sanitiser may write. */
  predicate Rewritable(k: string) {
    k == "site_name" || k == "latitude" || k == "longitude" || k == "is_validated" || k == "id"
  }

  /**
   * How a kept output entry relates to the input entry it came from: the
   * site number and every other field are carried over; the entry is marked
   * validated; a fresh validation overwrites name and coordinates; an
   * existing id is kept and a missing one becomes `usgs_` plus a fresh id.
   */
  ghost predicate Sanitized(src: SiteEntry, out: SiteEntry, validate: string -> Validation, strval: Value -> string,
                            newId: string) {
    && src.Keys <= out.Keys
    && Field(out, "site_number") == Field(src, "site_number")
    && Field(out, "is_validated") == Bool(true)
    && (forall k :: !Rewritable(k) ==> Field(out, k) == Field(src, k))
    && (AlreadyValidated(src) ==>
          Field(out, "site_name") == Field(src, "site_name") &&
          Field(out, "latitude") == Field(src, "latitude") &&
          Field(out, "longitude") == Field(src, "longitude"))
    && (!AlreadyValidated(src) ==>
          var v := validate(strval(Field(src, "site_number")));
          v.Valid? &&
          Field(out, "site_name") == Str(v.site.siteName) &&
          Field(out, "latitude") == Number(v.site.latitude) &&
          Field(out, "longitude") == Number(v.site.longitude))
    && (EmptyValue(Field(src, "id")) ==> Field(out, "id") == Str("usgs_" + newId))
    && (!EmptyValue(Field(src, "id")) ==> Field(out, "id") == Field(src, "id"))
  }

  /** An entry that a further pass keeps exactly as it is. */
  predicate Settled(e: SiteEntry) {
    !EmptyValue(Field(e, "site_number")) && AlreadyValidated(e) && !EmptyValue(Field(e, "id"))
  }

  /** One pass of the sanitiser's loop body. */
  function SanitizeEntry(e: SiteEntry, validate: string -> Validation, strval: Value -> string, newId: string)
    : Option<SiteEntry>
  {
    if EmptyValue(Field(e, "site_number")) then None
    else
      var refreshed :=
        if AlreadyValidated(e) then Some(e)
        else match validate(strval(Field(e, "site_number")))
          case False => None
          case Valid(site) =>
            Some(e["site_name" := Str(site.siteName)]["latitude" := Number(site.latitude)]
                  ["longitude" := Number(site.longitude)]["is_validated" := Bool(true)]);
      match refreshed
      case None => None
      case Some(r) => if EmptyValue(Field(r, "id")) then Some(r["id" := Str("usgs_" + newId)]) else Some(r)
  }

  /** The loop body keeps exactly the entries `Keeps` names, and what it keeps is `Sanitized` and settled. */
  lemma SanitizeEntryMeaning(e: SiteEntry, validate: string -> Validation, strval: Value -> string, newId: string)
    ensures SanitizeEntry(e, validate, strval, newId).Some? <==> Keeps(e, validate, strval)
    ensures SanitizeEntry(e, validate, strval, newId).Some? ==>
              var out := SanitizeEntry(e, validate, strval, newId).value;
              Sanitized(e, out, validate, strval, newId) && Settled(out)
  {
  }

  /** A settled entry passes through the loop body untouched. */
  lemma SettledEntryStays(e: SiteEntry, validate: string -> Validation, strval: Value -> string, newId: string)
    requires Settled(e)
    ensures SanitizeEntry(e, validate, strval, newId) == Some(e)
  {
  }

  /**
   * Reference definition of the sanitiser over a list: each entry in turn,
   * the entry at position i drawing `freshId(i)` when it needs an id.
   */
  function SanitizeList(entries: seq<SiteEntry>, validate: string -> Validation, strval: Value -> string,
                        freshId: nat -> string): (r: seq<SiteEntry>)
    ensures |r| <= |entries|
    ensures forall k :: 0 <= k < |r| ==> Settled(r[k])
    decreases |entries|
  {
    if |entries| == 0 then []
    else
      var n := |entries| - 1;
      var rest := SanitizeList(entries[..n], validate, strval, freshId);
      SanitizeEntryMeaning(entries[n], validate, strval, freshId(n));
      match SanitizeEntry(entries[n], validate, strval, freshId(n))
      case None => rest
      case Some(e) => rest + [e]
  }

  /**
   * `sites` is the sanitised form of `entries[..n]`, and `origin` says for
   * each output entry which input position it came from: positions rise,
   * exactly the kept entries appear, and each output is `Sanitized` from its
   * source.
   */
  ghost predicate Traces(entries: seq<SiteEntry>, n: nat, sites: seq<SiteEntry>, origin: seq<nat>,
                         validate: string -> Validation, strval: Value -> string, freshId: nat -> string)
    requires n <= |entries|
  {
    && |origin| == |sites|
    && (forall a, b :: 0 <= a < b < |origin| ==> origin[a] < origin[b])
    && (forall k :: 0 <= k < |origin| ==> origin[k] < n)
    && (forall j :: 0 <= j < n ==> (j in origin <==> Keeps(entries[j], validate, strval)))
    && (forall k :: 0 <= k < |sites| ==>
          Sanitized(entries[origin[k]], sites[k], validate, strval, freshId(origin[k])))
  }

  /** Handling entry n extends a trace of `entries[..n]` to one of `entries[..n + 1]`. */
  lemma TracesExtend(entries: seq<SiteEntry>, n: nat, sites: seq<SiteEntry>, origin: seq<nat>,
                     validate: string -> Validation, strval: Value -> string, freshId: nat -> string)
    requires n < |entries|
    requires Traces(entries, n, sites, origin, validate, strval, freshId)
    ensures var kept := SanitizeEntry(entries[n], validate, strval, freshId(n));
      kept.Some? ==> Traces(entries, n + 1, sites + [kept.value], origin + [n], validate, strval, freshId)
    ensures SanitizeEntry(entries[n], validate, strval, freshId(n)).None? ==>
              Traces(entries, n + 1, sites, origin, validate, strval, freshId)
  {
    SanitizeEntryMeaning(entries[n], validate, strval, freshId(n));
    var kept := SanitizeEntry(entries[n], validate, strval, freshId(n));
    if kept.Some? {
      var sites', origin' := sites + [kept.value], origin + [n];
      forall k | 0 <= k < |sites'|
        ensures Sanitized(entries[origin'[k]], sites'[k], validate, strval, freshId(origin'[k]))
      {
        if k < |sites| {
          assert sites'[k] == sites[k] && origin'[k] == origin[k];
        }
      }
      forall j | 0 <= j < n + 1
        ensures j in origin' <==> Keeps(entries[j], validate, strval)
      {
        if j < n {
          assert j in origin' <==> j in origin;
        }
      }
    } else {
      assert n !in origin;
    }
  }

  /** The reference list grows by the loop body's result for entry i. */
  lemma SanitizeListStep(entries: seq<SiteEntry>, i: nat, validate: string -> Validation, strval: Value -> string,
                         freshId: nat -> string)
    requires i < |entries|
    ensures var kept := SanitizeEntry(entries[i], validate, strval, freshId(i));
      SanitizeList(entries[..i + 1], validate, strval, freshId) ==
        SanitizeList(entries[..i], validate, strval, freshId) + (if kept.Some? then [kept.value] else [])
  {
    assert entries[..i + 1][..i] == entries[..i];
  }

  /**
   * `validate_sites_setting`. `validate` stands for `validate_site`, `strval`
   * for PHP's string conversion of the submitted site number, and
   * `freshId(i)` for the `uniqid` drawn while handling entry i. Besides the
   * sanitised list it reports, for each output entry, the input position it
   * came from.
   */
  method SanitizeSites(input: Submitted, validate: string -> Validation, strval: Value -> string,
                       freshId: nat -> string)
    returns (sites: seq<SiteEntry>, origin: seq<nat>)
    ensures input.NotArray? ==> sites == [] && origin == []
    ensures |origin| == |sites|
    ensures input.Entries? ==>
              && |sites| <= |input.entries|
              && sites == SanitizeList(input.entries, validate, strval, freshId)
              // the output keeps input order
              && (forall a, b :: 0 <= a < b < |origin| ==> origin[a] < origin[b])
              && (forall k :: 0 <= k < |origin| ==> origin[k] < |input.entries|)
              // an input entry survives iff it has a site number and is or becomes validated
              && (forall i :: 0 <= i < |input.entries| ==>
                    (i in origin <==> Keeps(input.entries[i], validate, strval)))
              && (forall k :: 0 <= k < |sites| ==>
                    Sanitized(input.entries[origin[k]], sites[k], validate, strval, freshId(origin[k])))
    ensures forall k :: 0 <= k < |sites| ==> Field(sites[k], "is_validated") == Bool(true)
  {
    sites, origin := [], [];
    if input.Entries? {
      sites, origin := SanitizeEntries(input.entries, validate, strval, freshId);
    }
  }

  /** The loop of `validate_sites_setting` over a submitted array. */
  method SanitizeEntries(entries: seq<SiteEntry>, validate: string -> Validation, strval: Value -> string,
                         freshId: nat -> string)
    returns (sites: seq<SiteEntry>, origin: seq<nat>)
    ensures sites == SanitizeList(entries, validate, strval, freshId)
    ensures Traces(entries, |entries|, sites, origin, validate, strval, freshId)
  {
    sites, origin := [], [];
    var i := 0;
    while i < |entries|
      invariant 0 <= i <= |entries|
      invariant sites == SanitizeList(entries[..i], validate, strval, freshId)
      invariant Traces(entries, i, sites, origin, validate, strval, freshId)
    {
      SanitizeListStep(entries, i, validate, strval, freshId);
      TracesExtend(entries, i, sites, origin, validate, strval, freshId);
      var kept := SanitizeEntry(entries[i], validate, strval, freshId(i));
      if kept.Some? {
        sites := sites + [kept.value];
        origin := origin + [i];
      }
      i := i + 1;
    }
    assert entries[..|entries|] == entries;
  }

  /** A list of settled entries is a fixed point of the sanitiser. */
  lemma {:induction false} SettledListStays(entries: seq<SiteEntry>, validate: string -> Validation,
                                             strval: Value -> string, freshId: nat -> string)
    requires forall k :: 0 <= k < |entries| ==> Settled(entries[k])
    ensures SanitizeList(entries, validate, strval, freshId) == entries
    decreases |entries|
  {
    if |entries| > 0 {
      var n := |entries| - 1;
      SettledListStays(entries[..n], validate, strval, freshId);
      SettledEntryStays(entries[n], validate, strval, freshId(n));
      assert entries[..n] + [entries[n]] == entries;
    }
  }

  /**
   * Saving an already sanitised list again changes nothing and validates
   * nothing: the second pass does not depend on the validator, the string
   * conversion or the id source at all.
   */
  lemma SanitizeIdempotent(entries: seq<SiteEntry>, validate: string -> Validation, strval: Value -> string,
                           freshId: nat -> string, validate2: string -> Validation, strval2: Value -> string,
                           freshId2: nat -> string)
    ensures var once := SanitizeList(entries, validate, strval, freshId);
      SanitizeList(once, validate2, strval2, freshId2) == once
  {
    SettledListStays(SanitizeList(entries, validate, strval, freshId), validate2, strval2, freshId2);
  }

  /**
   * The hidden form field posts `is_validated` as the string "1", so a
   * re-submitted entry is validated again and dropped if the site has gone.
   */
  lemma FormFlagRevalidates(e: SiteEntry, validate: string -> Validation, strval: Value -> string,
                            freshId: nat -> string)
    requires !EmptyValue(Field(e, "site_number"))
    requires Field(e, "is_validated") == Str("1")
    requires validate(strval(Field(e, "site_number"))) == False
    ensures SanitizeList([e], validate, strval, freshId) == []
  {
    assert [e][..0] == [];
  }

  // ---------------------------------------------------------------------------
  // ajax_validate_site
  // ---------------------------------------------------------------------------

  /** The JSON reply: `wp_send_json_error` with a message, or `wp_send_json_success` with the site. */
  datatype AjaxReply = AjaxError(message: string) | AjaxSuccess(message: string, site: Site)

  const NoPermissionMessage := "You do not have permission to perform this action."
  const SiteNumberRequiredMessage := "Site number is required."
  const InvalidSiteMessage := "Invalid or inactive USGS site number. Please verify and try again."
  const MalformedSiteMessage := "The site was found but returned invalid data. Please try again."
  const ValidatedMessage := "Site validated successfully."

  /**
   * The `empty($validation['site_number']) || empty($validation['site_name'])`
   * test. A freshly fetched site carries the number asked for, but a cached
   * one carries the number it was stored under, which can differ when
   * `sanitize_key` maps two numbers to one key.
   */
  predicate Malformed(site: Site) {
    PhpEmpty(site.siteNumber) || PhpEmpty(site.siteName)
  }

  /** The state once the attempt has been logged, which is what `validate_site` then sees. */
  function AttemptLogged(st: State, env: Env, siteNumber: string): State {
    st.(log := Record(st.log, env.now, "AJAX site validation attempt",
                      map["site_number" := Text(siteNumber)], LevelDebug))
  }

  /**
   * `ajax_validate_site` after the nonce check. `canManage` is
   * `current_user_can('manage_options')`; `siteNumber` is the sanitised
   * POST field ("" when absent).
   */
  function AjaxValidateSite(st: State, env: Env, canManage: bool, siteNumber: string,
                            fetch: Request -> Reply): (o: Outcome<AjaxReply>)
    ensures !canManage ==> o == Outcome(AjaxError(NoPermissionMessage), st, None)
    ensures canManage && PhpEmpty(siteNumber) ==> o == Outcome(AjaxError(SiteNumberRequiredMessage), st, None)
    ensures canManage && !PhpEmpty(siteNumber) ==>
              var v := ValidateSite(AttemptLogged(st, env, siteNumber), env, siteNumber, fetch);
              && o.sent == v.sent
              && o.state.current == st.current && o.state.historical == st.historical
              && (v.result == False ==>
                    o.result == AjaxError(InvalidSiteMessage) && o.state.validation == v.state.validation)
              // a site without a usable number or name: the cached entry is removed so that the next try refetches
              && (v.result.Valid? && Malformed(v.result.site) ==>
                    o.result == AjaxError(MalformedSiteMessage) &&
                    o.state.validation == Delete(v.state.validation, ValidationKey(env, siteNumber)))
              && (v.result.Valid? && !Malformed(v.result.site) ==>
                    o.result == AjaxSuccess(ValidatedMessage, v.result.site) &&
                    o.state.validation == v.state.validation)
  {
    if !canManage then Outcome(AjaxError(NoPermissionMessage), st, None)
    else if PhpEmpty(siteNumber) then Outcome(AjaxError(SiteNumberRequiredMessage), st, None)
    else
      var v := ValidateSite(AttemptLogged(st, env, siteNumber), env, siteNumber, fetch);
      match v.result
      case False => Outcome(AjaxError(InvalidSiteMessage), v.state, v.sent)
      case Valid(site) =>
        if Malformed(site) then
          var log := Record(v.state.log, env.now, "Site validation returned malformed data",
                            map["site_number" := Text(siteNumber)], LevelError);
          Outcome(AjaxError(MalformedSiteMessage),
                  v.state.(validation := Delete(v.state.validation, ValidationKey(env, siteNumber)), log := log),
                  v.sent)
        else
          var log := Record(v.state.log, env.now, "Site validated successfully via AJAX",
                            map["site_number" := Text(siteNumber), "site_name" := Text(site.siteName)], LevelInfo);
          Outcome(AjaxSuccess(ValidatedMessage, site), v.state.(log := log), v.sent)
  }

  /**
   * Success comes exactly from a permitted request for a site that validates
   * with a usable number and name; a site fetched on this request carries
   * the number asked for.
   */
  lemma AjaxSuccessExactly(st: State, env: Env, canManage: bool, siteNumber: string, fetch: Request -> Reply)
    ensures var o := AjaxValidateSite(st, env, canManage, siteNumber, fetch);
      o.result.AjaxSuccess? <==>
        canManage && !PhpEmpty(siteNumber) &&
        var v := ValidateSite(AttemptLogged(st, env, siteNumber), env, siteNumber, fetch);
        v.result.Valid? && !Malformed(v.result.site)
    ensures var o := AjaxValidateSite(st, env, canManage, siteNumber, fetch);
      o.result.AjaxSuccess? ==> !PhpEmpty(o.result.site.siteNumber) && !PhpEmpty(o.result.site.siteName)
    ensures var o := AjaxValidateSite(st, env, canManage, siteNumber, fetch);
      o.result.AjaxSuccess? && o.sent.Some? ==> o.result.site.siteNumber == siteNumber
  {
  }

  /** After the "invalid data" reply, validating the same number again goes upstream instead of reusing the cache. */
  lemma MalformedReplyForcesRefetch(st: State, env: Env, siteNumber: string, fetch: Request -> Reply,
                                    later: int, fetch2: Request -> Reply)
    requires AjaxValidateSite(st, env, true, siteNumber, fetch).result == AjaxError(MalformedSiteMessage)
    ensures ValidateSite(AjaxValidateSite(st, env, true, siteNumber, fetch).state, env.(now := later),
                         siteNumber, fetch2).sent == Some(ValidationRequest(siteNumber))
  {
    assert ValidationKey(env.(now := later), siteNumber) == ValidationKey(env, siteNumber);
  }
}
