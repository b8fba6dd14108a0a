/** `SearchEngine` of search_engine.py: reshaping a Custom Search response,
    the page extractor with its sentence-level deduplication of the main
    content, and the loop of `scrape_urls` that attaches each page's extraction
    to its search result. */
module SearchEngine {
  import opened Values
  import opened Text
  import opened Lists
  import opened Html

  // ---------------------------------------------------------------------------
  // format_search_results

  /** The keys copied from every search result, in the source's order. */
  const ItemKeys: seq<string> :=
    ["title", "link", "snippet", "htmlSnippet", "displayLink", "formattedUrl", "htmlFormattedUrl"]

  const MetadataKeys: seq<string> := ["kind", "url", "queries", "context", "searchInformation"]

  /** `{k: d.get(k) for k in keys}`: absent keys become `None`. */
  function Pick(d: Record, keys: seq<string>): (r: Record)
    ensures r.Keys == set k | k in keys
    ensures forall k :: k in keys ==> r[k] == (if k in d then d[k] else Null)
  {
    map k | k in keys :: Get(d, k, Null)
  }

  /** `format_search_results(search_data)`. */
  method FormatSearchResults(searchData: Record) returns (r: Result<Record>)
    ensures var it := Iterated(Get(searchData, "items", List([])));
      r.Ok? <==> it.Ok? && AllObjects(it.value)
    ensures r.Ok? ==>
      var xs := Iterated(Get(searchData, "items", List([]))).value;
      && r.value.Keys == {"metadata", "items"}
      && r.value["metadata"] == Object(Pick(searchData, MetadataKeys))
      && r.value["items"].List? && |r.value["items"].xs| == |xs|
      && forall i :: 0 <= i < |xs| ==> r.value["items"].xs[i] == Object(Pick(xs[i].fields, ItemKeys))
  {
    var metadata := Pick(searchData, MetadataKeys);
    var it := Iterated(Get(searchData, "items", List([])));
    if it.Err? {
      return Err(it.error);
    }
    var xs := it.value;
    var items: seq<Value> := [];
    for i := 0 to |xs|
      invariant |items| == i
      invariant forall j :: 0 <= j < i ==> xs[j].Object? && items[j] == Object(Pick(xs[j].fields, ItemKeys))
    {
      if !xs[i].Object? {
        assert !AllObjects(xs);
        return Err("AttributeError: object has no attribute 'get'");
      }
      items := items + [Object(Pick(xs[i].fields, ItemKeys))];
    }
    r := Ok(map["metadata" := Object(metadata), "items" := List(items)]);
  }

  /** A response without `items` gives an empty item list. */
  lemma NoItemsKey(searchData: Record)
    requires "items" !in searchData
    ensures Iterated(Get(searchData, "items", List([]))) == Ok([])
  {
  }

  // ---------------------------------------------------------------------------
  // Sentences of the main content

  predicate IsStop(c: char) { c == '.' || c == '!' || c == '?' }

  /** `re.split(r'(?<=[.!?])\s+', s)`: the string is cut at every whitespace
      run that directly follows `.`, `!` or `?`, and the run is dropped. */
  function SplitSentences(s: string): (r: seq<string>)
    ensures |r| >= 1
    decreases |s|
  {
    if s == "" then [""]
    else if |s| >= 2 && IsStop(s[0]) && IsSpace(s[1]) then
      DropSpacesIsSuffix(s[1..]);
      [[s[0]]] + SplitSentences(DropSpaces(s[1..]))
    else
      var r := SplitSentences(s[1..]);
      [[s[0]] + r[0]] + r[1..]
  }

  /** Whitespace only as single plain spaces, as `clean_text` leaves it. */
  predicate SingleSpaced(s: string)
  {
    && (forall i :: 0 <= i < |s| && IsSpace(s[i]) ==> s[i] == ' ')
    && (forall i :: 0 <= i < |s| - 1 ==> !IsSpace(s[i]) || !IsSpace(s[i + 1]))
  }

  lemma SingleSpacedTail(s: string)
    requires s != "" && SingleSpaced(s)
    ensures SingleSpaced(s[1..])
  {
    assert forall i :: 0 <= i < |s| - 1 ==> s[1..][i] == s[i + 1];
  }

  /** On single-spaced text the cut points are exactly where the sentences
      are joined back with one space: splitting loses nothing. */
  lemma {:induction false} SplitSentencesRoundTrip(s: string)
    requires SingleSpaced(s)
    ensures Join(SplitSentences(s), " ") == s
    decreases |s|
  {
    if s != "" {
      var t := s[1..];
      SingleSpacedTail(s);
      if |s| >= 2 && IsStop(s[0]) && IsSpace(s[1]) {
        SingleSpacedTail(t);
        var u := t[1..];
        assert DropSpaces(t) == u by {
          assert u == "" || !IsSpace(u[0]) by {
            if u != "" { assert u[0] == s[2]; }
          }
        }
        SplitSentencesRoundTrip(u);
        JoinCons([s[0]], SplitSentences(u));
        assert [s[0]] + " " + u == s by { assert s[1] == ' '; }
      } else {
        SplitSentencesRoundTrip(t);
        JoinExtendHead(s[0], SplitSentences(t));
        assert [s[0]] + t == s;
      }
    }
  }

  /** No sentence contains a cut point of its own. */
  lemma {:induction false} SentencesHaveNoCutPoint(s: string)
    ensures forall k :: 0 <= k < |SplitSentences(s)| ==> NoCutPoint(SplitSentences(s)[k])
    decreases |s|
  {
    if s != "" {
      var r := SplitSentences(s);
      if |s| >= 2 && IsStop(s[0]) && IsSpace(s[1]) {
        DropSpacesIsSuffix(s[1..]);
        SentencesHaveNoCutPoint(DropSpaces(s[1..]));
        assert forall k :: 1 <= k < |r| ==> r[k] == SplitSentences(DropSpaces(s[1..]))[k - 1];
      } else {
        var q := SplitSentences(s[1..]);
        SentencesHaveNoCutPoint(s[1..]);
        assert r == [[s[0]] + q[0]] + q[1..];
        var h := [s[0]] + q[0];
        assert forall j :: 1 <= j < |h| ==> h[j] == q[0][j - 1];
        if s[1..] != "" {
          FirstSentenceHead(s[1..]);
        }
      }
    }
  }

  /** A sentence that ends where a cut point begins. */
  predicate EndsAtStop(p: string)
  {
    p != "" && IsStop(p[|p| - 1])
  }

  /** Every cut is made at a cut point: each sentence but the last is
      non-empty and ends with `.`, `!` or `?`. */
  lemma {:induction false} SentencesEndAtStops(s: string)
    ensures forall k :: 0 <= k < |SplitSentences(s)| - 1 ==> EndsAtStop(SplitSentences(s)[k])
    decreases |s|
  {
    var r := SplitSentences(s);
    if s == "" {
    } else if |s| >= 2 && IsStop(s[0]) && IsSpace(s[1]) {
      DropSpacesIsSuffix(s[1..]);
      var q := SplitSentences(DropSpaces(s[1..]));
      SentencesEndAtStops(DropSpaces(s[1..]));
      assert r == [[s[0]]] + q;
      forall k | 0 <= k < |r| - 1
        ensures EndsAtStop(r[k])
      {
        if k > 0 {
          assert r[k] == q[k - 1];
        }
      }
    } else {
      var q := SplitSentences(s[1..]);
      SentencesEndAtStops(s[1..]);
      assert r == [[s[0]] + q[0]] + q[1..];
      forall k | 0 <= k < |r| - 1
        ensures EndsAtStop(r[k])
      {
        if k > 0 {
          assert r[k] == q[k];
        } else {
          assert EndsAtStop(q[0]);
          assert r[0][|r[0]| - 1] == q[0][|q[0]| - 1];
        }
      }
    }
  }

  predicate NoCutPoint(p: string)
  {
    forall j :: 0 <= j < |p| - 1 ==> !(IsStop(p[j]) && IsSpace(p[j + 1]))
  }

  /** The first sentence starts with the first character. */
  lemma FirstSentenceHead(s: string)
    requires s != ""
    ensures SplitSentences(s)[0] != "" && SplitSentences(s)[0][0] == s[0]
  {
  }

  /** `main_content` after `if main_content:`: the sentences deduplicated and
      joined with newlines; empty stays empty. */
  function SentenceDeduped(main: string): string
  {
    if main == "" then "" else Join(Dedupe(SplitSentences(main)), "\n")
  }

  // ---------------------------------------------------------------------------
  // extract_content

  /** `soup.find('meta', attrs={'name': 'description'})`. */
  function FindDescription(doc: Document): (r: Option<Element>)
    ensures r.Some? ==> r.value in doc && IsDescription(r.value)
    ensures r.None? <==> forall i :: 0 <= i < |doc| ==> !IsDescription(doc[i])
  {
    if doc == [] then None
    else if IsDescription(doc[0]) then Some(doc[0])
    else FindDescription(doc[1..])
  }

  /** What `attrs={'name': 'description'}` matches on a `meta` element. */
  predicate IsDescription(e: Element)
  {
    e.tag == "meta" && Attr(e, "name", "") == "description"
  }

  /** The element found is the first description tag: none comes before it. */
  lemma {:induction false} FindDescriptionIsFirst(doc: Document)
    ensures FindDescription(doc).Some? ==>
      exists k :: 0 <= k < |doc| && FirstDescription(doc, k) && doc[k] == FindDescription(doc).value
  {
    if doc != [] && !IsDescription(doc[0]) {
      var t := doc[1..];
      FindDescriptionIsFirst(t);
      if FindDescription(t).Some? {
        var k :| 0 <= k < |t| && FirstDescription(t, k) && t[k] == FindDescription(t).value;
        assert forall j :: 0 < j <= k ==> doc[j] == t[j - 1];
        assert FirstDescription(doc, k + 1);
      }
    } else if doc != [] {
      assert FirstDescription(doc, 0);
    }
  }

  /** `doc[k]` is a description tag and no element before it is one. */
  predicate FirstDescription(doc: Document, k: int)
    requires 0 <= k < |doc|
  {
    IsDescription(doc[k]) && forall j :: 0 <= j < k ==> !IsDescription(doc[j])
  }

  function MetaDescription(doc: Document): string
  {
    match FindDescription(doc)
    case None => ""
    case Some(m) => CleanText(Attr(m, "content", ""))
  }

  /** `main_content` before the sentence step: the cleaned text of the first
      `main` element, `''` without one. */
  function MainText(doc: Document): string
  {
    match Find(doc, "main")
    case None => ""
    case Some(m) => CleanText(TextOf(m))
  }

  /** `dedupe_list([clean_text(p.text) for p in soup.find_all('p') if
      clean_text(p.text)])`. */
  function Paragraphs(doc: Document): seq<string>
  {
    Dedupe(NonEmpty(CleanTexts(FindAll(doc, ["p"]))))
  }

  /** `[title, main_content, *paragraphs]` with `filter(None, ...)` applied:
      a `None` title and every empty string drop out. */
  function AllTextParts(title: Value, main: string, paragraphs: seq<string>): seq<string>
  {
    NonEmpty((if title.Str? then [title.s] else []) + [main] + paragraphs)
  }

  /** The record `extract_content` returns. */
  function Extraction(resolve: (string, string) -> string, doc: Document, base: string): (r: Record)
    ensures r.Keys == {"title", "headers", "paragraphs", "links", "meta_description", "main_content", "all_text"}
  {
    var title := TitleOf(doc);
    var main := SentenceDeduped(MainText(doc));
    var paragraphs := Paragraphs(doc);
    map[
      "title" := title,
      "headers" := Object(map[
        "h1" := List(StrValues(HeaderList(doc, "h1"))),
        "h2" := List(StrValues(HeaderList(doc, "h2"))),
        "h3" := List(StrValues(HeaderList(doc, "h3")))]),
      "paragraphs" := List(StrValues(paragraphs)),
      "links" := List(LinkValues(LinksOf(resolve, base, Anchors(doc)))),
      "meta_description" := Str(MetaDescription(doc)),
      "main_content" := Str(main),
      "all_text" := Str(Join(AllTextParts(title, main, paragraphs), "\n\n"))]
  }

  /** `extract_content(html_content, base_url)`. The anchor loop raises
      `ValueError` when `urljoin` rejects an href; otherwise the record is
      `Extraction`. */
  method ExtractContent(joins: (string, string) -> bool, resolve: (string, string) -> string, page: Page, base: string)
    returns (r: Result<Record>)
    ensures r.Err? <==> !LinksJoin(joins, base, Anchors(page.doc))
    ensures r.Ok? ==> r.value == Extraction(resolve, page.doc, base)
  {
    var doc := page.doc;
    var title := TitleOf(doc);
    var h1, h2, h3 := HeaderList(doc, "h1"), HeaderList(doc, "h2"), HeaderList(doc, "h3");
    var paragraphs := Paragraphs(doc);
    var links := ExtractLinks(joins, resolve, base, doc);
    if links.Err? {
      return Err(links.error);
    }
    var metaDescription := MetaDescription(doc);
    var main := MainText(doc);
    if main != "" {
      main := Join(Dedupe(SplitSentences(main)), "\n");
    }
    var allText := Join(AllTextParts(title, main, paragraphs), "\n\n");
    r := Ok(map[
      "title" := title,
      "headers" := Object(map["h1" := List(StrValues(h1)), "h2" := List(StrValues(h2)), "h3" := List(StrValues(h3))]),
      "paragraphs" := List(StrValues(paragraphs)),
      "links" := List(LinkValues(links.value)),
      "meta_description" := Str(metaDescription),
      "main_content" := Str(main),
      "all_text" := Str(allText)]);
  }

  /** The main content is empty without a `main` element. The sentences of
      the cleaned `main` text, joined with single spaces, rebuild that text;
      the deduplicated list keeps every one of them and holds none twice. */
  lemma MainContentSentences(doc: Document)
    ensures Find(doc, "main").None? ==> SentenceDeduped(MainText(doc)) == ""
    ensures var m := MainText(doc);
      && Join(SplitSentences(m), " ") == m
      && Distinct(Dedupe(SplitSentences(m)))
      && (forall i :: 0 <= i < |SplitSentences(m)| ==> SplitSentences(m)[i] in Dedupe(SplitSentences(m)))
  {
    var m := MainText(doc);
    if Find(doc, "main").Some? {
      CleanTextIsClean(TextOf(Find(doc, "main").value));
    }
    SplitSentencesRoundTrip(m);
  }

  /** Paragraphs are distinct and never empty; a header list may hold `''`,
      but no entry twice. */
  lemma ListsOfExtraction(doc: Document, tag: string)
    ensures Distinct(Paragraphs(doc))
    ensures forall i :: 0 <= i < |Paragraphs(doc)| ==> Paragraphs(doc)[i] != ""
    ensures Distinct(HeaderList(doc, tag))
  {
    var ps := NonEmpty(CleanTexts(FindAll(doc, ["p"])));
    forall i | 0 <= i < |Paragraphs(doc)|
      ensures Paragraphs(doc)[i] != ""
    {
      var k := FirstIndex(ps, Paragraphs(doc)[i]);
    }
  }

  /** `all_text` holds the title (when it is a non-empty string), the main
      content (when non-empty) and every paragraph, in that order. */
  lemma AllTextOrder(title: Value, main: string, paragraphs: seq<string>)
    requires forall i :: 0 <= i < |paragraphs| ==> paragraphs[i] != ""
    ensures AllTextParts(title, main, paragraphs) ==
      (if title.Str? && title.s != "" then [title.s] else []) + (if main != "" then [main] else []) + paragraphs
  {
    var t := if title.Str? then [title.s] else [];
    NonEmptyAppend(t, [main]);
    NonEmptyAppend(t + [main], paragraphs);
    NonEmptyOfNonEmpty(paragraphs);
    assert NonEmpty([main]) == (if main != "" then [main] else []) by {
      assert [main][1..] == [];
    }
    if title.Str? {
      assert NonEmpty(t) == (if title.s != "" then [title.s] else []) by {
        assert t[1..] == [];
      }
    }
  }

  lemma {:induction false} NonEmptyAppend(a: seq<string>, b: seq<string>)
    ensures NonEmpty(a + b) == NonEmpty(a) + NonEmpty(b)
  {
    if a != [] {
      assert (a + b)[1..] == a[1..] + b;
      NonEmptyAppend(a[1..], b);
    } else {
      assert a + b == b;
    }
  }

  lemma {:induction false} NonEmptyOfNonEmpty(xs: seq<string>)
    requires forall i :: 0 <= i < |xs| ==> xs[i] != ""
    ensures NonEmpty(xs) == xs
  {
    if xs != [] {
      NonEmptyOfNonEmpty(xs[1..]);
    }
  }

  // ---------------------------------------------------------------------------
  // scrape_urls

  /** The content `fetch_url` returns for a link: the page when the link is
      a string and the request succeeded, `None` when the request raised. */
  function Content(link: Value, page: Option<Page>): Option<Page>
  {
    if link.Str? then page else None
  }

  /** `item.update({'extracted_content': ..., 'html_content': ...})`: the
      two keys are set, every other key keeps its value. */
  function Attached(item: Record, extracted: Value, html: string): (m: Record)
    ensures forall k :: k in m <==> k in item || k == "extracted_content" || k == "html_content"
    ensures forall k :: k in item && k != "extracted_content" && k != "html_content" ==> m[k] == item[k]
    ensures "extracted_content" in m && m["extracted_content"] == extracted
    ensures "html_content" in m && m["html_content"] == Str(html)
  {
    item["extracted_content" := extracted]["html_content" := Str(html)]
  }

  /** Whether the loop's `extract_content` call for this item raises: the
      item has truthy content and `urljoin` rejects one of its hrefs. */
  predicate ScrapeRaises(joins: (string, string) -> bool, item: Record, page: Option<Page>)
    requires "link" in item
  {
    var content := Content(item["link"], page);
    content.Some? && content.value.html != "" && !LinksJoin(joins, item["link"].s, Anchors(content.value.doc))
  }

  /** Item `k` is the first one whose extraction raises. */
  predicate FirstRaise(joins: (string, string) -> bool, items: seq<Record>, pages: seq<Option<Page>>, k: int)
    requires |pages| == |items| && AllHaveLink(items)
  {
    && 0 <= k < |items|
    && ScrapeRaises(joins, items[k], pages[k])
    && (forall j :: 0 <= j < k ==> !ScrapeRaises(joins, items[j], pages[j]))
  }

  /** No item's extraction raises. */
  predicate NoneRaise(joins: (string, string) -> bool, items: seq<Record>, pages: seq<Option<Page>>)
    requires |pages| == |items| && AllHaveLink(items)
  {
    forall j :: 0 <= j < |items| ==> !ScrapeRaises(joins, items[j], pages[j])
  }

  /** One item after the loop, when its extraction does not raise: with
      truthy content it gains the extraction of its page and the page's
      markup, otherwise it is untouched. */
  function Scraped(resolve: (string, string) -> string, item: Record, page: Option<Page>): (m: Record)
    requires "link" in item
    ensures Content(item["link"], page).None? || Content(item["link"], page).value.html == "" ==> m == item
    ensures Content(item["link"], page).Some? && Content(item["link"], page).value.html != "" ==>
      m == Attached(item, Object(Extraction(resolve, page.value.doc, item["link"].s)), page.value.html)
  {
    var content := Content(item["link"], page);
    if content.Some? && content.value.html != "" then
      Attached(item, Object(Extraction(resolve, content.value.doc, item["link"].s)), content.value.html)
    else item
  }

  /** `scrape_urls(items)`. Queueing reads `item['link']` and parses it, so a
      missing or unparsable link raises before any result is awaited, and the
      items stay as they were. Otherwise the items are updated in place in
      order; the first extraction that raises ends the call with the items
      before it updated and the rest untouched, and without one the same
      list comes back. */
  method ScrapeUrls(parses: string -> bool, joins: (string, string) -> bool, resolve: (string, string) -> string,
                    items: array<Record>, pages: seq<Option<Page>>)
    returns (r: Result<array<Record>>)
    requires |pages| == items.Length
    modifies items
    ensures !Queueable(parses, old(items[..])) ==> r.Err? && items[..] == old(items[..])
    ensures Queueable(parses, old(items[..])) ==>
      && (r.Ok? <==> NoneRaise(joins, old(items[..]), pages))
      && (r.Ok? ==> r.value == items && ScrapedUpTo(resolve, items[..], old(items[..]), pages, items.Length))
      && (r.Err? ==> r.error == InvalidUrl)
      && (r.Err? ==> exists k :: FirstRaise(joins, old(items[..]), pages, k) && ScrapedUpTo(resolve, items[..], old(items[..]), pages, k))
  {
    var urls: seq<Value> := [];
    for i := 0 to items.Length
      invariant |urls| == i && Queueable(parses, items[..i])
      invariant forall j :: 0 <= j < i ==> urls[j] == items[j]["link"]
    {
      if "link" !in items[i] {
        assert !Queueable(parses, items[..]) by { assert items[..][i] == items[i]; }
        return Err("KeyError: 'link'");
      }
      if !UrlparseAccepts(parses, items[i]["link"]) {
        assert !Queueable(parses, items[..]) by { assert items[..][i] == items[i]; }
        if items[i]["link"].Str? {
          return Err(InvalidUrl);
        }
        return Err("AttributeError: object has no attribute 'decode'");
      }
      assert items[..i + 1] == items[..i] + [items[i]];
      urls := urls + [items[i]["link"]];
    }
    assert items[..] == items[..items.Length];
    var stop := ScrapeAll(joins, resolve, items, urls, pages);
    if stop < items.Length {
      return Err(InvalidUrl);
    }
    r := Ok(items);
  }

  /** The fetch-and-update loop of `scrape_urls`, over the queued links. It
      returns the number of items it got through: all of them, or the index
      of the first whose extraction raises. */
  method ScrapeAll(joins: (string, string) -> bool, resolve: (string, string) -> string,
                   items: array<Record>, urls: seq<Value>, pages: seq<Option<Page>>)
    returns (stop: nat)
    requires |urls| == |pages| == items.Length && AllHaveLink(items[..])
    requires forall j :: 0 <= j < |urls| ==> urls[j] == items[j]["link"]
    modifies items
    ensures stop <= items.Length
    ensures stop == items.Length <==> NoneRaise(joins, old(items[..]), pages)
    ensures stop < items.Length ==> FirstRaise(joins, old(items[..]), pages, stop)
    ensures ScrapedUpTo(resolve, items[..], old(items[..]), pages, stop)
  {
    ghost var before := items[..];
    for i := 0 to items.Length
      invariant ScrapedUpTo(resolve, items[..], before, pages, i)
      invariant forall j :: 0 <= j < i ==> !ScrapeRaises(joins, before[j], pages[j])
    {
      ghost var prev := items[..];
      var content := Content(urls[i], pages[i]);
      if content.Some? && content.value.html != "" {
        var extracted := ExtractContent(joins, resolve, content.value, urls[i].s);
        if extracted.Err? {
          assert FirstRaise(joins, before, pages, i);
          return i;
        }
        items[i] := Attached(items[i], Object(extracted.value), content.value.html);
      }
      assert items[i] == Scraped(resolve, before[i], pages[i]);
      ScrapedUpToStep(resolve, prev, items[..], before, pages, i);
    }
    stop := items.Length;
  }

  /** The first `i` items are updated and the rest are untouched. */
  predicate ScrapedUpTo(resolve: (string, string) -> string, now: seq<Record>, before: seq<Record>, pages: seq<Option<Page>>, i: int)
    requires |now| == |before| == |pages| && AllHaveLink(before) && 0 <= i <= |now|
  {
    && (forall j :: 0 <= j < i ==> now[j] == Scraped(resolve, before[j], pages[j]))
    && (forall j :: i <= j < |now| ==> now[j] == before[j])
  }

  lemma ScrapedUpToStep(resolve: (string, string) -> string, prev: seq<Record>, now: seq<Record>, before: seq<Record>, pages: seq<Option<Page>>, i: int)
    requires |prev| == |before| == |pages| && AllHaveLink(before) && 0 <= i < |prev|
    requires ScrapedUpTo(resolve, prev, before, pages, i)
    requires now == prev[i := Scraped(resolve, before[i], pages[i])]
    ensures ScrapedUpTo(resolve, now, before, pages, i + 1)
  {
  }
}
