/** `WebScraper` of webscraper.py: `scrape_urls` queues one fetch per item,
    then walks the queued pairs in order, tags every item whose fetch brought
    back content with its id and markup, and counts successes and failures. */
module WebScraper {
  import opened Values
  import opened Html

  /** What awaiting an item's queued fetch gives: the response text when the
      link is a string and the request succeeded, `None` otherwise
      (`fetch_url` turns every exception into `None`). */
  function Fetched(link: Value, response: Option<string>): Option<string>
  {
    if link.Str? then response else None
  }

  /** Whether the fetched content counts as a scrape: `if html_content:`. */
  predicate Scrapes(link: Value, response: Option<string>)
  {
    Fetched(link, response).Some? && Fetched(link, response).value != ""
  }

  /** `item.update({'id': item['link'], 'html_content': html})`. */
  function Tagged(item: Record, html: string): (m: Record)
    requires "link" in item
    ensures forall k :: k in m <==> k in item || k == "id" || k == "html_content"
    ensures forall k :: k in item && k != "id" && k != "html_content" ==> m[k] == item[k]
    ensures "id" in m && m["id"] == item["link"]
    ensures "html_content" in m && m["html_content"] == Str(html)
  {
    item["id" := item["link"]]["html_content" := Str(html)]
  }

  /** One item after the second loop. */
  function Scraped(item: Record, response: Option<string>): (m: Record)
    requires "link" in item
    ensures !Scrapes(item["link"], response) ==> m == item
    ensures Scrapes(item["link"], response) ==> m == Tagged(item, response.value)
  {
    if Scrapes(item["link"], response) then Tagged(item, response.value) else item
  }

  /** How many of the items count as scraped. */
  function Successes(items: seq<Record>, responses: seq<Option<string>>): (n: nat)
    requires |responses| == |items| && AllHaveLink(items)
    ensures n <= |items|
  {
    if items == [] then 0
    else
      var k := |items| - 1;
      Successes(items[..k], responses[..k]) + (if Scrapes(items[k]["link"], responses[k]) then 1 else 0)
  }

  /** What the two loops leave behind besides the updated items: the links
      the fetches were queued for, and the two counters. */
  datatype Tally = Tally(queued: seq<Value>, successful: nat, failed: nat)

  /** `scrape_urls(items)` with `responses[i]` the outcome of the request for
      item `i`. Queueing reads and parses `item['link']`: a missing or
      unparsable link raises before any result is awaited, and the items stay
      as they were; otherwise every item is updated in place and the same
      list comes back. */
  method ScrapeUrls(parses: string -> bool, items: array<Record>, responses: seq<Option<string>>) returns (r: Result<Tally>, out: array<Record>)
    requires |responses| == items.Length
    modifies items
    ensures out == items
    ensures r.Err? <==> !Queueable(parses, old(items[..]))
    ensures r.Err? ==> items[..] == old(items[..])
    ensures r.Ok? ==> |r.value.queued| == items.Length
    ensures r.Ok? ==> forall i :: 0 <= i < items.Length ==> r.value.queued[i] == old(items[i])["link"]
    ensures r.Ok? ==> forall i :: 0 <= i < items.Length ==> items[i] == Scraped(old(items[i]), responses[i])
    ensures r.Ok? ==> r.value.successful == Successes(old(items[..]), responses)
    ensures r.Ok? ==> r.value.successful + r.value.failed == items.Length
  {
    out := items;
    var tasks: seq<Value> := [];
    for i := 0 to items.Length
      invariant |tasks| == i && Queueable(parses, items[..i])
      invariant forall j :: 0 <= j < i ==> tasks[j] == items[j]["link"]
    {
      if "link" !in items[i] {
        assert !Queueable(parses, items[..]) by { assert items[..][i] == items[i]; }
        return Err("KeyError: 'link'"), out;
      }
      if !UrlparseAccepts(parses, items[i]["link"]) {
        assert !Queueable(parses, items[..]) by { assert items[..][i] == items[i]; }
        if items[i]["link"].Str? {
          return Err(InvalidUrl), out;
        }
        return Err("AttributeError: object has no attribute 'decode'"), out;
      }
      assert items[..i + 1] == items[..i] + [items[i]];
      tasks := tasks + [items[i]["link"]];
    }
    assert items[..] == items[..items.Length];
    var successful, failed := TagAll(items, tasks, responses);
    r := Ok(Tally(tasks, successful, failed));
  }

  /** The second loop of `scrape_urls`, over the queued links. */
  method TagAll(items: array<Record>, tasks: seq<Value>, responses: seq<Option<string>>)
    returns (successful: nat, failed: nat)
    requires |tasks| == |responses| == items.Length && AllHaveLink(items[..])
    requires forall j :: 0 <= j < |tasks| ==> tasks[j] == items[j]["link"]
    modifies items
    ensures forall i :: 0 <= i < items.Length ==> items[i] == Scraped(old(items[i]), responses[i])
    ensures successful == Successes(old(items[..]), responses)
    ensures successful + failed == items.Length
  {
    ghost var before := items[..];
    successful, failed := 0, 0;
    for i := 0 to items.Length
      invariant ScrapedUpTo(items[..], before, responses, i)
      invariant successful == Successes(before[..i], responses[..i])
      invariant successful + failed == i
    {
      SuccessesSnoc(before, responses, i);
      var html := Fetched(tasks[i], responses[i]);
      ghost var prev := items[..];
      if html.Some? && html.value != "" {
        items[i] := Tagged(items[i], html.value);
        successful := successful + 1;
      } else {
        failed := failed + 1;
      }
      ScrapedUpToStep(prev, items[..], before, responses, i);
    }
    assert before[..items.Length] == before && responses[..items.Length] == responses;
  }

  /** The count over one more item. */
  lemma SuccessesSnoc(items: seq<Record>, responses: seq<Option<string>>, i: nat)
    requires |responses| == |items| && AllHaveLink(items) && i < |items|
    ensures AllHaveLink(items[..i]) && AllHaveLink(items[..i + 1]) && "link" in items[i]
    ensures Successes(items[..i + 1], responses[..i + 1]) ==
      Successes(items[..i], responses[..i]) + (if Scrapes(items[i]["link"], responses[i]) then 1 else 0)
  {
    assert items[..i + 1][..i] == items[..i] && responses[..i + 1][..i] == responses[..i];
  }

  /** The first `i` items are updated and the rest are untouched. */
  predicate ScrapedUpTo(now: seq<Record>, before: seq<Record>, responses: seq<Option<string>>, i: int)
    requires |now| == |before| == |responses| && AllHaveLink(before) && 0 <= i <= |now|
  {
    && (forall j :: 0 <= j < i ==> now[j] == Scraped(before[j], responses[j]))
    && (forall j :: i <= j < |now| ==> now[j] == before[j])
  }

  lemma ScrapedUpToStep(prev: seq<Record>, now: seq<Record>, before: seq<Record>, responses: seq<Option<string>>, i: int)
    requires |prev| == |before| == |responses| && AllHaveLink(before) && 0 <= i < |prev|
    requires ScrapedUpTo(prev, before, responses, i)
    requires now == prev[i := Scraped(before[i], responses[i])]
    ensures ScrapedUpTo(now, before, responses, i + 1)
  {
  }

  /** The items with a string link whose request brought back non-empty
      content, among the first `n`. */
  function ScrapedIndices(items: seq<Record>, responses: seq<Option<string>>, n: int): set<int>
    requires |responses| == |items| && AllHaveLink(items) && n <= |items|
  {
    set i | 0 <= i < n && items[i]["link"].Str? && responses[i].Some? && responses[i].value != ""
  }

  lemma ScrapedIndicesOfPrefix(items: seq<Record>, responses: seq<Option<string>>, k: nat)
    requires |responses| == |items| && AllHaveLink(items) && k <= |items|
    ensures AllHaveLink(items[..k])
    ensures ScrapedIndices(items[..k], responses[..k], k) == ScrapedIndices(items, responses, k)
  {
    assert forall i :: 0 <= i < k ==> items[..k][i] == items[i] && responses[..k][i] == responses[i];
  }

  lemma ScrapedIndicesSnoc(items: seq<Record>, responses: seq<Option<string>>, k: nat)
    requires |responses| == |items| && AllHaveLink(items) && k < |items|
    ensures |ScrapedIndices(items, responses, k + 1)| ==
      |ScrapedIndices(items, responses, k)| + (if Scrapes(items[k]["link"], responses[k]) then 1 else 0)
  {
    var a, b := ScrapedIndices(items, responses, k + 1), ScrapedIndices(items, responses, k);
    if Scrapes(items[k]["link"], responses[k]) {
      ScrapedIndicesGrow(items, responses, k);
    } else {
      assert a == b;
    }
  }

  lemma ScrapedIndicesGrow(items: seq<Record>, responses: seq<Option<string>>, k: nat)
    requires |responses| == |items| && AllHaveLink(items) && k < |items|
    requires Scrapes(items[k]["link"], responses[k])
    ensures ScrapedIndices(items, responses, k + 1) == ScrapedIndices(items, responses, k) + {k}
    ensures k !in ScrapedIndices(items, responses, k)
  {
  }

  /** The success count is the number of items whose link is a string and
      whose request brought back non-empty content. */
  lemma {:induction false} SuccessesCountScrapedItems(items: seq<Record>, responses: seq<Option<string>>)
    requires |responses| == |items| && AllHaveLink(items)
    ensures Successes(items, responses) ==
      |set i | 0 <= i < |items| && items[i]["link"].Str? && responses[i].Some? && responses[i].value != ""|
  {
    if items != [] {
      var k := |items| - 1;
      ScrapedIndicesOfPrefix(items, responses, k);
      SuccessesCountScrapedItems(items[..k], responses[..k]);
      ScrapedIndicesSnoc(items, responses, k);
      assert ScrapedIndices(items, responses, k + 1) ==
        set i | 0 <= i < |items| && items[i]["link"].Str? && responses[i].Some? && responses[i].value != "";
    }
  }
}
