/** The query parameters `google_custom_search` of
    search_scraper/search_engine.py sends to the Custom Search API: the four
    defaults, an optional site restriction, and the caller's extra parameters
    on top. */
module SearchParams {
  import opened Values
  import opened Text

  predicate AllStr(xs: seq<Value>)
  {
    forall i :: 0 <= i < |xs| ==> xs[i].Str?
  }

  /** `'|'.join(sites)`: `TypeError` as soon as an element is not a string. */
  function JoinedSites(sites: seq<Value>): (r: Result<string>)
    ensures r.Ok? <==> AllStr(sites)
  {
    if AllStr(sites) then Ok(Join(seq(|sites|, i requires 0 <= i < |sites| => sites[i].s), "|"))
    else Err("TypeError: sequence item: expected str instance")
  }

  /** The joined string, one site at a time: a single site is itself, and
      a site in front of others is followed by a vertical bar and the join of
      the rest. */
  lemma JoinedSitesCons(site: string, rest: seq<Value>)
    requires AllStr(rest)
    ensures JoinedSites([Str(site)] + rest) == Ok(if rest == [] then site else site + "|" + JoinedSites(rest).value)
  {
    var sites := [Str(site)] + rest;
    assert AllStr(sites) by {
      assert forall i :: 0 < i < |sites| ==> sites[i] == rest[i - 1];
    }
    var parts := seq(|sites|, i requires 0 <= i < |sites| => sites[i].s);
    var restParts := seq(|rest|, i requires 0 <= i < |rest| => rest[i].s);
    assert parts == [site] + restParts;
    if rest == [] {
      assert parts == [site];
    } else {
      assert parts[1..] == restParts;
    }
  }

  /** Whether `site_restrict` adds a `siteSearch` key; a truthy value that is
      neither a string nor a list adds only the filter. */
  predicate SetsSiteSearch(siteRestrict: Value)
  {
    Truthy(siteRestrict) && (siteRestrict.Str? || siteRestrict.List?)
  }

  /** `siteSearch` for a restriction that sets it. */
  function SiteSearch(siteRestrict: Value): Result<string>
    requires SetsSiteSearch(siteRestrict)
  {
    if siteRestrict.Str? then Ok(siteRestrict.s) else JoinedSites(siteRestrict.xs)
  }

  predicate IsDefaultKey(k: string)
  {
    k == "q" || k == "key" || k == "cx" || k == "num"
  }

  /** Lines 35-55 of `google_custom_search`: `default_params` built from the
      arguments and the configured key and engine id, the site keys when
      `site_restrict` is truthy, then `default_params.update(params)`. */
  method BuildParams(query: Value, num: Value, apiKey: Value, engineId: Value, siteRestrict: Value, params: Record)
    returns (r: Result<Record>)
    ensures r.Err? <==> SetsSiteSearch(siteRestrict) && SiteSearch(siteRestrict).Err?
    ensures r.Ok? ==> forall k :: k in r.value <==>
      k in params || IsDefaultKey(k)
      || (k == "siteSearch" && SetsSiteSearch(siteRestrict))
      || (k == "siteSearchFilter" && Truthy(siteRestrict))
    ensures r.Ok? ==> forall k :: k in params ==> r.value[k] == params[k]
    ensures r.Ok? && "q" !in params ==> "q" in r.value && r.value["q"] == query
    ensures r.Ok? && "key" !in params ==> "key" in r.value && r.value["key"] == apiKey
    ensures r.Ok? && "cx" !in params ==> "cx" in r.value && r.value["cx"] == engineId
    ensures r.Ok? && "num" !in params ==> "num" in r.value && r.value["num"] == num
    ensures r.Ok? && SetsSiteSearch(siteRestrict) && "siteSearch" !in params ==>
      "siteSearch" in r.value && r.value["siteSearch"] == Str(SiteSearch(siteRestrict).value)
    ensures r.Ok? && Truthy(siteRestrict) && "siteSearchFilter" !in params ==>
      "siteSearchFilter" in r.value && r.value["siteSearchFilter"] == Str("i")
  {
    var p := map["q" := query, "key" := apiKey, "cx" := engineId, "num" := num];
    if Truthy(siteRestrict) {
      if siteRestrict.Str? {
        p := p["siteSearch" := siteRestrict];
      } else if siteRestrict.List? {
        var joined := JoinedSites(siteRestrict.xs);
        if joined.Err? {
          return Err(joined.error);
        }
        p := p["siteSearch" := Str(joined.value)];
      }
      p := p["siteSearchFilter" := Str("i")];
    }
    r := Ok(p + params);
  }
}
