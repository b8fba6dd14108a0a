/** `WebScraper` of search_scraper/webscraper.py: the per-page extraction
    (rendered text plus deduplicated links) and the loop of `scrape_urls` that
    merges each page's extraction into its search-result record and counts the
    successes and failures. */
module ScraperWebScraper {
  import opened Values
  import opened Text
  import opened Html

  /** `extract_content(html_content, base_url)`: the cleaned `html2text`
      rendering and the anchor loop's links. It raises `ValueError` when
      `urljoin` rejects an href. */
  method ExtractContent(joins: (string, string) -> bool, resolve: (string, string) -> string, page: Page, base: string)
    returns (r: Result<Record>)
    ensures r.Err? <==> !LinksJoin(joins, base, Anchors(page.doc))
    ensures r.Ok? ==> r.value == PageRecord(base, CleanText(page.rendered), LinksOf(resolve, base, Anchors(page.doc)))
  {
    var allText := CleanText(page.rendered);
    var links := ExtractLinks(joins, resolve, base, page.doc);
    if links.Err? {
      return Err(links.error);
    }
    r := Ok(PageRecord(base, allText, links.value));
  }

  /** Whether `fetch_and_process_url` gets as far as returning an extraction:
      the link is a string, the fetch brought back a page, and `urljoin`
      accepts every href on it. */
  predicate Extracts(joins: (string, string) -> bool, link: Value, page: Option<Page>)
  {
    link.Str? && page.Some? && LinksJoin(joins, link.s, Anchors(page.value.doc))
  }

  /** The value `fetch_and_process_url` hands back for one item: the
      extraction when it gets that far, `None` when anything raised (a
      non-string URL makes the request raise, a malformed href makes the
      extraction raise, and the `except` turns both into `None`). */
  function Fetched(joins: (string, string) -> bool, resolve: (string, string) -> string, link: Value, page: Option<Page>): Option<Record>
  {
    if Extracts(joins, link, page) then
      Some(PageRecord(link.s, CleanText(page.value.rendered), LinksOf(resolve, link.s, Anchors(page.value.doc))))
    else None
  }

  /** One item after the merge loop: `item.update(result)` when a result came
      back, the item untouched otherwise. */
  function Merged(joins: (string, string) -> bool, resolve: (string, string) -> string, item: Record, page: Option<Page>): (m: Record)
    requires "link" in item
    ensures "link" in m && m["link"] == item["link"]
  {
    match Fetched(joins, resolve, item["link"], page)
    case Some(result) => item + result
    case None => item
  }

  /** An item without a result (no page, a non-string link or an href that
      `urljoin` rejects) is untouched. A merged item keeps its other
      keys and gains the extraction's three, with `link` still the URL it was
      fetched from. */
  lemma MergedShape(joins: (string, string) -> bool, resolve: (string, string) -> string, item: Record, page: Option<Page>)
    requires "link" in item
    ensures var m := Merged(joins, resolve, item, page);
      && (!Extracts(joins, item["link"], page) ==> m == item)
      && (Extracts(joins, item["link"], page) ==>
        && m.Keys == item.Keys + {"all_text", "links"}
        && m["link"] == item["link"]
        && m["all_text"] == Str(CleanText(page.value.rendered))
        && m["links"] == List(LinkValues(LinksOf(resolve, item["link"].s, Anchors(page.value.doc))))
        && (forall k :: k in item && k !in {"link", "all_text", "links"} ==> m[k] == item[k]))
  {
  }

  /** How many items the merge loop counts as scraped. */
  function Successes(joins: (string, string) -> bool, resolve: (string, string) -> string, items: seq<Record>, pages: seq<Option<Page>>): (n: nat)
    requires |pages| == |items| && AllHaveLink(items)
    ensures n <= |items|
  {
    if items == [] then 0
    else
      var k := |items| - 1;
      Successes(joins, resolve, items[..k], pages[..k]) + (if Fetched(joins, resolve, items[k]["link"], pages[k]).Some? then 1 else 0)
  }

  /** `scrape_urls(items)` with `pages[i]` the outcome of fetching item `i`.
      Reading `item['link']` while queueing the fetches raises `KeyError`
      before any result is merged, so the items stay as they were (fetches
      queued for earlier items may already have started); otherwise every
      item is merged in place and the method hands back the same list with
      the two counters. */
  method ScrapeUrls(joins: (string, string) -> bool, resolve: (string, string) -> string, items: array<Record>, pages: seq<Option<Page>>)
    returns (r: Result<(nat, nat)>, out: array<Record>)
    requires |pages| == items.Length
    modifies items
    ensures out == items
    ensures r.Err? <==> !AllHaveLink(old(items[..]))
    ensures r.Err? ==> items[..] == old(items[..])
    ensures r.Ok? ==>
      && AllHaveLink(old(items[..]))
      && (forall i :: 0 <= i < items.Length ==> items[i] == Merged(joins, resolve, old(items[i]), pages[i]))
      && r.value.0 == Successes(joins, resolve, old(items[..]), pages)
      && r.value.0 + r.value.1 == items.Length
  {
    out := items;
    var urls: seq<Value> := [];
    for i := 0 to items.Length
      invariant |urls| == i && AllHaveLink(items[..i])
      invariant forall j :: 0 <= j < i ==> urls[j] == items[j]["link"]
    {
      if "link" !in items[i] {
        assert !AllHaveLink(items[..]) by { assert items[..][i] == items[i]; }
        return Err("KeyError: 'link'"), out;
      }
      assert items[..i + 1] == items[..i] + [items[i]];
      urls := urls + [items[i]["link"]];
    }
    assert items[..] == items[..items.Length];
    var successful, failed := MergeResults(joins, resolve, items, urls, pages);
    r := Ok((successful, failed));
  }

  /** The merge loop of `scrape_urls`, over the URLs read while queueing. */
  method MergeResults(joins: (string, string) -> bool, resolve: (string, string) -> string, items: array<Record>, urls: seq<Value>, pages: seq<Option<Page>>)
    returns (successful: nat, failed: nat)
    requires |urls| == |pages| == items.Length && AllHaveLink(items[..])
    requires forall j :: 0 <= j < |urls| ==> urls[j] == items[j]["link"]
    modifies items
    ensures forall i :: 0 <= i < items.Length ==> items[i] == Merged(joins, resolve, old(items[i]), pages[i])
    ensures successful == Successes(joins, resolve, old(items[..]), pages)
    ensures successful + failed == items.Length
  {
    ghost var before := items[..];
    successful, failed := 0, 0;
    for i := 0 to items.Length
      invariant MergedUpTo(joins, resolve, items[..], before, pages, i)
      invariant successful == Successes(joins, resolve, before[..i], pages[..i])
      invariant successful + failed == i
    {
      SuccessesSnoc(joins, resolve, before, pages, i);
      var result := Fetched(joins, resolve, urls[i], pages[i]);
      MergeOne(joins, resolve, before[i], pages[i]);
      ghost var prev := items[..];
      if result.Some? && Truthy(Object(result.value)) {
        items[i] := items[i] + result.value;
        successful := successful + 1;
      } else {
        failed := failed + 1;
      }
      MergedUpToStep(joins, resolve, prev, items[..], before, pages, i);
    }
    assert before[..items.Length] == before && pages[..items.Length] == pages;
  }

  /** The first `i` items are merged and the rest are untouched. */
  predicate MergedUpTo(joins: (string, string) -> bool, resolve: (string, string) -> string, now: seq<Record>, before: seq<Record>, pages: seq<Option<Page>>, i: int)
    requires |now| == |before| == |pages| && AllHaveLink(before) && 0 <= i <= |now|
  {
    && (forall j :: 0 <= j < i ==> now[j] == Merged(joins, resolve, before[j], pages[j]))
    && (forall j :: i <= j < |now| ==> now[j] == before[j])
  }

  lemma MergedUpToStep(joins: (string, string) -> bool, resolve: (string, string) -> string, prev: seq<Record>, now: seq<Record>, before: seq<Record>, pages: seq<Option<Page>>, i: int)
    requires |prev| == |before| == |pages| && AllHaveLink(before) && 0 <= i < |prev|
    requires MergedUpTo(joins, resolve, prev, before, pages, i)
    requires now == prev[i := Merged(joins, resolve, before[i], pages[i])]
    ensures MergedUpTo(joins, resolve, now, before, pages, i + 1)
  {
  }

  /** The count over one more item. */
  lemma SuccessesSnoc(joins: (string, string) -> bool, resolve: (string, string) -> string, items: seq<Record>, pages: seq<Option<Page>>, i: nat)
    requires |pages| == |items| && AllHaveLink(items) && i < |items|
    ensures AllHaveLink(items[..i]) && AllHaveLink(items[..i + 1]) && "link" in items[i]
    ensures Successes(joins, resolve, items[..i + 1], pages[..i + 1]) ==
      Successes(joins, resolve, items[..i], pages[..i]) + (if Fetched(joins, resolve, items[i]["link"], pages[i]).Some? then 1 else 0)
  {
    assert items[..i + 1][..i] == items[..i] && pages[..i + 1][..i] == pages[..i];
  }

  /** A fetched extraction is never empty, so the loop's truthiness test
      merges exactly the items `Fetched` has a result for. */
  lemma MergeOne(joins: (string, string) -> bool, resolve: (string, string) -> string, item: Record, page: Option<Page>)
    requires "link" in item
    ensures var res := Fetched(joins, resolve, item["link"], page);
      && (res.Some? ==> Truthy(Object(res.value)) && Merged(joins, resolve, item, page) == item + res.value)
      && (res.None? ==> Merged(joins, resolve, item, page) == item)
  {
  }

  /** The items among the first `n` that `fetch_and_process_url` gets an
      extraction for. */
  function FetchedIndices(joins: (string, string) -> bool, items: seq<Record>, pages: seq<Option<Page>>, n: int): set<int>
    requires |pages| == |items| && AllHaveLink(items) && n <= |items|
  {
    set i | 0 <= i < n && Extracts(joins, items[i]["link"], pages[i])
  }

  lemma FetchedIndicesOfPrefix(joins: (string, string) -> bool, items: seq<Record>, pages: seq<Option<Page>>, k: nat)
    requires |pages| == |items| && AllHaveLink(items) && k <= |items|
    ensures AllHaveLink(items[..k])
    ensures FetchedIndices(joins, items[..k], pages[..k], k) == FetchedIndices(joins, items, pages, k)
  {
    assert forall i :: 0 <= i < k ==> items[..k][i] == items[i] && pages[..k][i] == pages[i];
  }

  lemma FetchedIndicesSnoc(joins: (string, string) -> bool, items: seq<Record>, pages: seq<Option<Page>>, k: nat)
    requires |pages| == |items| && AllHaveLink(items) && k < |items|
    ensures |FetchedIndices(joins, items, pages, k + 1)| ==
      |FetchedIndices(joins, items, pages, k)| + (if Extracts(joins, items[k]["link"], pages[k]) then 1 else 0)
  {
    if Extracts(joins, items[k]["link"], pages[k]) {
      FetchedIndicesGrow(joins, items, pages, k);
    } else {
      assert FetchedIndices(joins, items, pages, k + 1) == FetchedIndices(joins, items, pages, k);
    }
  }

  lemma FetchedIndicesGrow(joins: (string, string) -> bool, items: seq<Record>, pages: seq<Option<Page>>, k: nat)
    requires |pages| == |items| && AllHaveLink(items) && k < |items|
    requires Extracts(joins, items[k]["link"], pages[k])
    ensures FetchedIndices(joins, items, pages, k + 1) == FetchedIndices(joins, items, pages, k) + {k}
    ensures k !in FetchedIndices(joins, items, pages, k)
  {
  }

  /** The success count is the number of items whose link is a string,
      whose fetch produced a page, and whose hrefs all join. */
  lemma {:induction false} SuccessesCountFetchedPages(joins: (string, string) -> bool, resolve: (string, string) -> string, items: seq<Record>, pages: seq<Option<Page>>)
    requires |pages| == |items| && AllHaveLink(items)
    ensures Successes(joins, resolve, items, pages) == |set i | 0 <= i < |items| && Extracts(joins, items[i]["link"], pages[i])|
  {
    if items != [] {
      var k := |items| - 1;
      FetchedIndicesOfPrefix(joins, items, pages, k);
      SuccessesCountFetchedPages(joins, resolve, items[..k], pages[..k]);
      FetchedIndicesSnoc(joins, items, pages, k);
      assert FetchedIndices(joins, items, pages, k + 1) ==
        set i | 0 <= i < |items| && Extracts(joins, items[i]["link"], pages[i]);
    }
  }
}
