/** The parsed HTML document the extractors read, and the anchor loop they all
    share: every `extract_content` walks `find_all('a', href=True)`, resolves
    each `href` against the page URL and keeps the first anchor per resolved URL.

    The parser itself is not modelled: a document is the sequence of its elements
    in document order, each with the facts about it that the extractors read. */
module Html {
  import opened Values
  import opened Text
  import opened Lists

  /** One element of the parsed tree.
      `strings` are the text nodes below it in document order (what `.text`
      concatenates); `sole` is what BeautifulSoup's `.string` returns, which the
      parser decides from the shape of the subtree. */
  datatype Element = Element(
    tag: string,
    attrs: map<string, string>,
    strings: seq<string>,
    sole: Option<string>)

  /** All elements of a document in document order. */
  type Document = seq<Element>

  /** What a successful fetch hands to the extractor: the raw markup, the
      document it parses to, and what `html2text` renders it as. */
  datatype Page = Page(html: string, doc: Document, rendered: string)

  /** `tag.text`. */
  function TextOf(e: Element): string
  {
    Concat(e.strings)
  }

  /** The stripped text nodes, with the ones that strip to nothing dropped. */
  function StrippedStrings(strings: seq<string>): (r: seq<string>)
    ensures |r| <= |strings|
    ensures forall i :: 0 <= i < |r| ==> r[i] != ""
  {
    if strings == [] then []
    else
      var s := Strip(strings[0]);
      (if s == "" then [] else [s]) + StrippedStrings(strings[1..])
  }

  /** `tag.get_text(separator=sep, strip=True)`. */
  function GetText(e: Element, sep: string): string
  {
    Join(StrippedStrings(e.strings), sep)
  }

  /** `tag.get(key, default)` for an attribute with a string value. */
  function Attr(e: Element, key: string, default: string): string
  {
    if key in e.attrs then e.attrs[key] else default
  }

  /** `soup.find_all(tags)` for a list of tag names: the elements with one of
      those names, in document order. */
  function FindAll(doc: Document, tags: seq<string>): (r: Document)
    ensures |r| <= |doc|
    ensures forall i :: 0 <= i < |r| ==> r[i].tag in tags && r[i] in doc
  {
    if doc == [] then []
    else (if doc[0].tag in tags then [doc[0]] else []) + FindAll(doc[1..], tags)
  }

  /** `soup.find(tag)` (also `soup.title` and `soup.body`): the first element
      with that name. */
  function Find(doc: Document, tag: string): (r: Option<Element>)
    ensures r.Some? ==> r.value.tag == tag && r.value in doc
    ensures r.None? <==> forall i :: 0 <= i < |doc| ==> doc[i].tag != tag
  {
    if doc == [] then None
    else if doc[0].tag == tag then Some(doc[0])
    else Find(doc[1..], tag)
  }

  /** Every element with one of the names is found. */
  lemma {:induction false} FindAllComplete(doc: Document, tags: seq<string>)
    ensures forall i :: 0 <= i < |doc| && doc[i].tag in tags ==> doc[i] in FindAll(doc, tags)
  {
    if doc != [] {
      FindAllComplete(doc[1..], tags);
      assert forall i :: 1 <= i < |doc| ==> doc[i] == doc[1..][i - 1];
    }
  }

  /** `find_all` keeps document order: the matches of a document split in
      two are those of the first part followed by those of the second. */
  lemma {:induction false} FindAllAppend(a: Document, b: Document, tags: seq<string>)
    ensures FindAll(a + b, tags) == FindAll(a, tags) + FindAll(b, tags)
  {
    if a == [] {
      assert a + b == b;
    } else {
      var head := if a[0].tag in tags then [a[0]] else [];
      assert (a + b)[0] == a[0];
      assert (a + b)[1..] == a[1..] + b;
      FindAllAppend(a[1..], b, tags);
      assert FindAll(a + b, tags) == head + (FindAll(a[1..], tags) + FindAll(b, tags));
      assert head + (FindAll(a[1..], tags) + FindAll(b, tags)) == (head + FindAll(a[1..], tags)) + FindAll(b, tags);
    }
  }

  /** `doc[k]` has the name and no element before it has. */
  predicate FirstWithTag(doc: Document, tag: string, k: int)
    requires 0 <= k < |doc|
  {
    doc[k].tag == tag && forall j :: 0 <= j < k ==> doc[j].tag != tag
  }

  /** `find` returns the first element with the name. */
  lemma {:induction false} FindIsFirst(doc: Document, tag: string)
    ensures Find(doc, tag).Some? ==> exists k :: 0 <= k < |doc| && FirstWithTag(doc, tag, k) && doc[k] == Find(doc, tag).value
  {
    if doc != [] && doc[0].tag != tag {
      var t := doc[1..];
      FindIsFirst(t, tag);
      if Find(t, tag).Some? {
        var k :| 0 <= k < |t| && FirstWithTag(t, tag, k) && t[k] == Find(t, tag).value;
        assert forall j :: 0 < j <= k ==> doc[j] == t[j - 1];
        assert FirstWithTag(doc, tag, k + 1);
      }
    } else if doc != [] {
      assert FirstWithTag(doc, tag, 0);
    }
  }

  /** `[clean_text(e.text) for e in es]`. */
  function CleanTexts(es: seq<Element>): seq<string>
  {
    seq(|es|, i requires 0 <= i < |es| => CleanText(TextOf(es[i])))
  }

  /** `dedupe_list([clean_text(h.text) for h in soup.find_all(tag)])`. */
  function HeaderList(doc: Document, tag: string): seq<string>
  {
    Dedupe(CleanTexts(FindAll(doc, [tag])))
  }

  // ---------------------------------------------------------------------------
  // The anchor loop

  /** An element that `find_all('a', href=True)` yields. */
  predicate IsAnchor(e: Element)
  {
    e.tag == "a" && "href" in e.attrs
  }

  type Anchor = e: Element | IsAnchor(e) witness Element("a", map["href" := ""], [], None)

  function Anchors(doc: Document): (r: seq<Anchor>)
    ensures |r| <= |doc|
  {
    if doc == [] then []
    else (if IsAnchor(doc[0]) then [doc[0]] else []) + Anchors(doc[1..])
  }

  /** One entry of `links`: `{'text': ..., 'href': ...}`. */
  datatype Link = Link(text: string, href: string)

  function LinkValue(l: Link): Value
  {
    Object(map["text" := Str(l.text), "href" := Str(l.href)])
  }

  function LinkValues(links: seq<Link>): seq<Value>
  {
    seq(|links|, i requires 0 <= i < |links| => LinkValue(links[i]))
  }

  function Hrefs(links: seq<Link>): (r: seq<string>)
    ensures |r| == |links|
  {
    if links == [] then [] else Hrefs(links[..|links| - 1]) + [links[|links| - 1].href]
  }

  lemma {:induction false} HrefAt(links: seq<Link>, k: nat)
    requires k < |links|
    ensures Hrefs(links)[k] == links[k].href
  {
    if k < |links| - 1 {
      HrefAt(links[..|links| - 1], k);
    }
  }

  /** `urljoin(base_url, a.get('href'))` for every anchor, in order.

      `urljoin` is partial: it raises `ValueError` when `urlsplit` rejects
      one of its arguments (an unmatched `[` or `]` in the network location,
      among others). The URL library is not modelled; `joins(base, href)`
      says whether the call returns, and `resolve(base, href)` is what it
      returns when it does. */
  function Resolved(resolve: (string, string) -> string, base: string, anchors: seq<Anchor>): seq<string>
  {
    seq(|anchors|, i requires 0 <= i < |anchors| => resolve(base, anchors[i].attrs["href"]))
  }

  /** `urljoin(base_url, href)` raises for none of the anchors. */
  predicate LinksJoin(joins: (string, string) -> bool, base: string, anchors: seq<Anchor>)
  {
    forall i :: 0 <= i < |anchors| ==> joins(base, anchors[i].attrs["href"])
  }

  /** The `ValueError` that `urljoin` raises on a malformed URL. */
  const InvalidUrl := "ValueError: Invalid IPv6 URL"

  /** What the anchor loop has built after the given anchors: an anchor whose
      resolved URL is new adds an entry with its cleaned text, any other anchor
      is passed over. */
  function LinksOf(resolve: (string, string) -> string, base: string, anchors: seq<Anchor>): seq<Link>
  {
    if anchors == [] then []
    else
      var prev := LinksOf(resolve, base, anchors[..|anchors| - 1]);
      var a := anchors[|anchors| - 1];
      var url := resolve(base, a.attrs["href"]);
      if url in Hrefs(prev) then prev else prev + [Link(CleanText(TextOf(a)), url)]
  }

  /** The anchor loop with its `seen_urls` set. The first anchor whose href
      `urljoin` rejects ends the loop with the `ValueError`. */
  method ExtractLinks(joins: (string, string) -> bool, resolve: (string, string) -> string, base: string, doc: Document)
    returns (r: Result<seq<Link>>)
    ensures r.Err? <==> !LinksJoin(joins, base, Anchors(doc))
    ensures r.Err? ==> r.error == InvalidUrl
    ensures r.Ok? ==> r.value == LinksOf(resolve, base, Anchors(doc))
  {
    r := LinksLoop(joins, resolve, base, Anchors(doc));
  }

  /** The loop of `ExtractLinks` over the anchors `find_all` yields. */
  method LinksLoop(joins: (string, string) -> bool, resolve: (string, string) -> string, base: string, anchors: seq<Anchor>)
    returns (r: Result<seq<Link>>)
    ensures r.Err? <==> !LinksJoin(joins, base, anchors)
    ensures r.Err? ==> r.error == InvalidUrl
    ensures r.Ok? ==> r.value == LinksOf(resolve, base, anchors)
  {
    var links: seq<Link> := [];
    var seen: set<string> := {};
    for i := 0 to |anchors|
      invariant links == LinksOf(resolve, base, anchors[..i])
      invariant forall u :: u in seen <==> u in Hrefs(links)
      invariant LinksJoin(joins, base, anchors[..i])
    {
      var a := anchors[i];
      if !joins(base, a.attrs["href"]) {
        return Err(InvalidUrl);
      }
      var url := resolve(base, a.attrs["href"]);
      LinksOfSnoc(resolve, base, anchors, i);
      LinksJoinSnoc(joins, base, anchors, i);
      if url !in seen {
        var link := Link(CleanText(TextOf(a)), url);
        HrefsSnoc(links, link);
        links := links + [link];
        seen := seen + {url};
      }
    }
    assert anchors[..|anchors|] == anchors;
    r := Ok(links);
  }

  lemma LinksJoinSnoc(joins: (string, string) -> bool, base: string, anchors: seq<Anchor>, i: nat)
    requires i < |anchors| && LinksJoin(joins, base, anchors[..i]) && joins(base, anchors[i].attrs["href"])
    ensures LinksJoin(joins, base, anchors[..i + 1])
  {
    assert forall j :: 0 <= j < i ==> anchors[..i + 1][j] == anchors[..i][j];
  }

  /** The anchor loop over one more anchor. */
  lemma LinksOfSnoc(resolve: (string, string) -> string, base: string, anchors: seq<Anchor>, i: nat)
    requires i < |anchors|
    ensures var prev := LinksOf(resolve, base, anchors[..i]);
            var url := resolve(base, anchors[i].attrs["href"]);
      LinksOf(resolve, base, anchors[..i + 1]) ==
        if url in Hrefs(prev) then prev else prev + [Link(CleanText(TextOf(anchors[i])), url)]
  {
    assert anchors[..i + 1][..i] == anchors[..i];
  }

  /** The hrefs the loop keeps are exactly the resolved URLs with the repeats
      removed, each at its first occurrence. */
  lemma {:induction false} LinkHrefsAreDeduped(resolve: (string, string) -> string, base: string, anchors: seq<Anchor>)
    ensures Hrefs(LinksOf(resolve, base, anchors)) == Dedupe(Resolved(resolve, base, anchors))
  {
    if anchors != [] {
      var n := |anchors| - 1;
      var p := anchors[..n];
      LinkHrefsAreDeduped(resolve, base, p);
      var rs := Resolved(resolve, base, anchors);
      assert rs[..n] == Resolved(resolve, base, p);
      DedupeSnoc(rs);
      var prev := LinksOf(resolve, base, p);
      var url := rs[n];
      if url !in Hrefs(prev) {
        HrefsSnoc(prev, Link(CleanText(TextOf(anchors[n])), url));
      }
    }
  }

  lemma HrefsSnoc(links: seq<Link>, l: Link)
    ensures Hrefs(links + [l]) == Hrefs(links) + [l.href]
  {
    assert (links + [l])[..|links|] == links;
  }

  /** No two kept links share an href. */
  lemma LinkHrefsDistinct(resolve: (string, string) -> string, base: string, anchors: seq<Anchor>)
    ensures Distinct(Hrefs(LinksOf(resolve, base, anchors)))
  {
    LinkHrefsAreDeduped(resolve, base, anchors);
  }

  /** Every kept href is the resolution of some anchor's href, and every
      anchor's resolved URL is kept; there are never more links than anchors. */
  lemma LinksCoverAnchors(resolve: (string, string) -> string, base: string, anchors: seq<Anchor>)
    ensures var links := LinksOf(resolve, base, anchors);
      && |links| <= |anchors|
      && (forall k :: 0 <= k < |links| ==>
            exists i :: 0 <= i < |anchors| && links[k].href == resolve(base, anchors[i].attrs["href"]))
      && (forall i :: 0 <= i < |anchors| ==> resolve(base, anchors[i].attrs["href"]) in Hrefs(links))
  {
    LinkHrefsAreDeduped(resolve, base, anchors);
    var links := LinksOf(resolve, base, anchors);
    var rs := Resolved(resolve, base, anchors);
    forall k | 0 <= k < |links|
      ensures exists i :: 0 <= i < |anchors| && links[k].href == resolve(base, anchors[i].attrs["href"])
    {
      HrefAt(links, k);
      var i := FirstIndex(rs, links[k].href);
      assert rs[i] == resolve(base, anchors[i].attrs["href"]);
    }
    forall i | 0 <= i < |anchors|
      ensures resolve(base, anchors[i].attrs["href"]) in Hrefs(links)
    {
      assert rs[i] == resolve(base, anchors[i].attrs["href"]);
    }
  }

  /** Each kept link carries the cleaned text of the first anchor that resolves
      to its href, and the links come in the order of those first anchors. */
  lemma {:induction false} LinkTextIsFirstAnchors(resolve: (string, string) -> string, base: string, anchors: seq<Anchor>)
    ensures var links := LinksOf(resolve, base, anchors);
            var rs := Resolved(resolve, base, anchors);
      forall k :: 0 <= k < |links| ==>
        links[k].href in rs && links[k].text == CleanText(TextOf(anchors[FirstIndex(rs, links[k].href)]))
  {
    if anchors != [] {
      var n := |anchors| - 1;
      var p := anchors[..n];
      LinkTextIsFirstAnchors(resolve, base, p);
      LinkHrefsAreDeduped(resolve, base, p);
      var rs := Resolved(resolve, base, anchors);
      assert rs[..n] == Resolved(resolve, base, p);
      var prev := LinksOf(resolve, base, p);
      var links := LinksOf(resolve, base, anchors);
      var url := rs[n];
      assert links == if url in Hrefs(prev) then prev else prev + [Link(CleanText(TextOf(anchors[n])), url)];
      forall k | 0 <= k < |links|
        ensures links[k].href in rs && links[k].text == CleanText(TextOf(anchors[FirstIndex(rs, links[k].href)]))
      {
        if k < |prev| {
          assert links[k] == prev[k];
          FirstIndexInPrefix(rs, n, prev[k].href);
        } else {
          assert url !in rs[..n];
          FirstIndexOfFirstNew(rs, n, url);
        }
      }
    }
  }

  /** The links come in the order in which their URLs first occur. */
  lemma LinksInFirstOccurrenceOrder(resolve: (string, string) -> string, base: string, anchors: seq<Anchor>)
    ensures var hs := Hrefs(LinksOf(resolve, base, anchors));
            var rs := Resolved(resolve, base, anchors);
      forall i, j :: 0 <= i < j < |hs| ==> hs[i] in rs && hs[j] in rs && FirstIndex(rs, hs[i]) < FirstIndex(rs, hs[j])
  {
    LinkHrefsAreDeduped(resolve, base, anchors);
    DedupeKeepsFirstOccurrenceOrder(Resolved(resolve, base, anchors));
  }

  // ---------------------------------------------------------------------------
  // What the two search_scraper extractors return

  /** `{'link': base_url, 'all_text': all_text, 'links': links}`. */
  function PageRecord(base: string, allText: string, links: seq<Link>): (r: Record)
    ensures r.Keys == {"link", "all_text", "links"}
    ensures r["link"] == Str(base) && r["all_text"] == Str(allText)
    ensures r["links"].List? && |r["links"].xs| == |links|
    ensures Truthy(Object(r))
  {
    map["link" := Str(base), "all_text" := Str(allText), "links" := List(LinkValues(links))]
  }

  /** `soup.title.string if soup.title else ''`: `None` when the title
      element has no single string. */
  function TitleOf(doc: Document): (r: Value)
    ensures Find(doc, "title").None? ==> r == Str("")
    ensures r == Null <==> Find(doc, "title").Some? && Find(doc, "title").value.sole.None?
    ensures r.Null? || r.Str?
  {
    match Find(doc, "title")
    case None => Str("")
    case Some(t) => if t.sole.Some? then Str(t.sole.value) else Null
  }

  // ---------------------------------------------------------------------------
  // Queueing a fetch

  /** `urlparse(url)` accepts falsy values (it turns them into `''`) and the
      strings `urlsplit` does not reject (`parses`), and raises on anything
      else: `ValueError` for a malformed string, `AttributeError` for a
      truthy non-string. */
  predicate UrlparseAccepts(parses: string -> bool, v: Value)
  {
    (v.Str? && parses(v.s)) || !Truthy(v)
  }

  /** Every item has a `link` key. */
  predicate AllHaveLink(items: seq<Record>)
  {
    forall i :: 0 <= i < |items| ==> "link" in items[i]
  }

  /** Every item has a `link` that can be parsed, so queueing raises on none. */
  predicate Queueable(parses: string -> bool, items: seq<Record>)
  {
    forall i :: 0 <= i < |items| ==> "link" in items[i] && UrlparseAccepts(parses, items[i]["link"])
  }
}
