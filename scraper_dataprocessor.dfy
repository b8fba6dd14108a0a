/** `DataProcessor.extract_content` of search_scraper/dataprocessor.py, the
    richer extractor: title, h1-h6 header lists, paragraphs, links, meta tags,
    main content chosen by an ordered list of CSS selectors with a fallback to
    the body, the rendered text and the ld+json blocks. Only `links`, `link`
    and `all_text` reach the returned record, but computing the rest can make
    the call fail. */
module ScraperDataProcessor {
  import opened Values
  import opened Text
  import opened Lists
  import opened Html

  // ---------------------------------------------------------------------------
  // Headers

  /** `f'h{i}'` for `1 <= i <= 6`. */
  function HeaderTag(i: int): (t: string)
    requires 1 <= i <= 6
    ensures |t| == 2 && t[0] == 'h' && t[1] == "123456"[i - 1]
  {
    "h" + [(('0' as int) + i) as char]
  }

  /** The names the header loop fills in. */
  const HeaderTags: set<string> := {"h1", "h2", "h3", "h4", "h5", "h6"}

  lemma HeaderTagsAreTheTags()
    ensures forall i :: 1 <= i <= 6 ==> HeaderTag(i) in HeaderTags
    ensures forall t :: t in HeaderTags ==> exists i :: 1 <= i <= 6 && t == HeaderTag(i)
  {
    assert HeaderTag(1) == "h1" && HeaderTag(2) == "h2" && HeaderTag(3) == "h3";
    assert HeaderTag(4) == "h4" && HeaderTag(5) == "h5" && HeaderTag(6) == "h6";
    forall i | 1 <= i <= 6 ensures HeaderTag(i) in HeaderTags {
      if i == 1 {} else if i == 2 {} else if i == 3 {} else if i == 4 {} else if i == 5 {} else {}
    }
  }

  /** The names the loop has filled in before `f'h{n}'`. */
  function TagsBelow(n: int): set<string>
    requires 1 <= n <= 7
  {
    if n == 1 then {} else TagsBelow(n - 1) + {HeaderTag(n - 1)}
  }

  lemma TagsBelowSeven()
    ensures TagsBelow(7) == HeaderTags
  {
    assert HeaderTag(1) == "h1" && HeaderTag(2) == "h2" && HeaderTag(3) == "h3";
    assert HeaderTag(4) == "h4" && HeaderTag(5) == "h5" && HeaderTag(6) == "h6";
  }

  /** The `headers` loop over `range(1, 7)`. */
  method BuildHeaders(doc: Document) returns (headers: map<string, seq<string>>)
    ensures headers.Keys == HeaderTags
    ensures forall i :: 1 <= i <= 6 ==> HeaderTag(i) in headers && headers[HeaderTag(i)] == HeaderList(doc, HeaderTag(i))
    ensures forall t :: t in headers ==> Distinct(headers[t])
  {
    headers := map[];
    for i := 1 to 7
      invariant headers.Keys == TagsBelow(i)
      invariant forall t :: t in headers ==> headers[t] == HeaderList(doc, t)
    {
      headers := headers[HeaderTag(i) := HeaderList(doc, HeaderTag(i))];
    }
    TagsBelowSeven();
    HeaderTagsAreTheTags();
  }

  /** Each header list holds the cleaned header texts, every one of them
      once, in the order of their first occurrence. */
  lemma HeaderListIsDeduped(doc: Document, tag: string)
    ensures var hs := HeaderList(doc, tag);
            var all := CleanTexts(FindAll(doc, [tag]));
      && Distinct(hs)
      && (forall i :: 0 <= i < |all| ==> all[i] in hs)
      && (forall i, j :: 0 <= i < j < |hs| ==> hs[i] in all && hs[j] in all && FirstIndex(all, hs[i]) < FirstIndex(all, hs[j]))
  {
    DedupeKeepsFirstOccurrenceOrder(CleanTexts(FindAll(doc, [tag])));
  }

  // ---------------------------------------------------------------------------
  // Paragraphs

  /** `dedupe_list([clean_text(p.text) for p in soup.find_all(['p', 'div',
      'span']) if clean_text(p.text)])`. */
  function Paragraphs(doc: Document): (r: seq<string>)
    ensures Distinct(r)
    ensures forall i :: 0 <= i < |r| ==> r[i] != ""
  {
    Dedupe(NonEmpty(CleanTexts(FindAll(doc, ["p", "div", "span"]))))
  }

  /** The paragraphs are exactly the non-empty cleaned texts of the `p`, `div`
      and `span` elements, each in `clean_text`'s shape. */
  lemma ParagraphsAreCleanTexts(doc: Document)
    ensures var ps := Paragraphs(doc);
            var es := FindAll(doc, ["p", "div", "span"]);
      && (forall i :: 0 <= i < |ps| ==> IsClean(ps[i]) && exists e :: e in es && ps[i] == CleanText(TextOf(e)))
      && (forall e :: e in es && CleanText(TextOf(e)) != "" ==> CleanText(TextOf(e)) in ps)
  {
    var es := FindAll(doc, ["p", "div", "span"]);
    var ts := CleanTexts(es);
    var ps := Paragraphs(doc);
    forall i | 0 <= i < |ps|
      ensures IsClean(ps[i]) && exists e :: e in es && ps[i] == CleanText(TextOf(e))
    {
      assert ps[i] in NonEmpty(ts);
      var k := FirstIndex(ts, ps[i]);
      CleanTextIsClean(TextOf(es[k]));
    }
    forall e | e in es && CleanText(TextOf(e)) != ""
      ensures CleanText(TextOf(e)) in ps
    {
      var k := FirstIndex(es, e);
      assert ts[k] == CleanText(TextOf(e));
      var n := NonEmpty(ts);
      assert ts[k] in n;
      assert n[FirstIndex(n, ts[k])] == ts[k];
    }
  }

  // ---------------------------------------------------------------------------
  // Meta tags

  /** `meta.get('name', meta.get('property', ''))`. */
  function MetaName(m: Element): string
  {
    Attr(m, "name", Attr(m, "property", ""))
  }

  function MetaContent(m: Element): string
  {
    Attr(m, "content", "")
  }

  /** A meta element the loop records: both name and content non-empty. */
  predicate Recorded(m: Element)
  {
    MetaName(m) != "" && MetaContent(m) != ""
  }

  /** `meta_tags` after the loop has seen the given meta elements. */
  function MetaTagsOf(metas: seq<Element>): map<string, string>
  {
    if metas == [] then map[]
    else
      var prev := MetaTagsOf(metas[..|metas| - 1]);
      var m := metas[|metas| - 1];
      if Recorded(m) then prev[MetaName(m) := CleanText(MetaContent(m))] else prev
  }

  /** The meta-tag loop. */
  method ExtractMetaTags(doc: Document) returns (tags: map<string, string>)
    ensures tags == MetaTagsOf(FindAll(doc, ["meta"]))
  {
    var metas := FindAll(doc, ["meta"]);
    tags := map[];
    for i := 0 to |metas|
      invariant tags == MetaTagsOf(metas[..i])
    {
      assert metas[..i + 1][..i] == metas[..i];
      var m := metas[i];
      var name := Attr(m, "name", Attr(m, "property", ""));
      var content := Attr(m, "content", "");
      if name != "" && content != "" {
        tags := tags[name := CleanText(content)];
      }
    }
    assert metas[..|metas|] == metas;
  }

  predicate RecordedAs(m: Element, k: string)
  {
    Recorded(m) && MetaName(m) == k
  }

  /** A name is recorded exactly when some meta element with that name and a
      non-empty content exists. */
  lemma {:induction false} MetaTagsKeys(metas: seq<Element>, k: string)
    ensures k in MetaTagsOf(metas) <==> exists i :: 0 <= i < |metas| && RecordedAs(metas[i], k)
  {
    if metas != [] {
      var n := |metas| - 1;
      var p := metas[..n];
      MetaTagsKeys(p, k);
      if exists i :: 0 <= i < |metas| && RecordedAs(metas[i], k) {
        var i :| 0 <= i < |metas| && RecordedAs(metas[i], k);
        if i < n {
          assert RecordedAs(p[i], k);
        }
      }
      if exists i :: 0 <= i < |p| && RecordedAs(p[i], k) {
        var i :| 0 <= i < |p| && RecordedAs(p[i], k);
        assert RecordedAs(metas[i], k);
      }
    }
  }

  /** `metas[i]` is the last meta element recorded under `k`. */
  predicate LastRecordedAt(metas: seq<Element>, k: string, i: int)
    requires 0 <= i < |metas|
  {
    RecordedAs(metas[i], k) && forall j :: i < j < |metas| ==> !RecordedAs(metas[j], k)
  }

  /** The value recorded for a name is the cleaned content of the last meta
      element recorded under that name: later ones overwrite earlier ones. */
  lemma {:induction false} MetaTagsLastWins(metas: seq<Element>, k: string)
    requires k in MetaTagsOf(metas)
    ensures exists i :: 0 <= i < |metas| && LastRecordedAt(metas, k, i) && MetaTagsOf(metas)[k] == CleanText(MetaContent(metas[i]))
  {
    var n := |metas| - 1;
    var p := metas[..n];
    if RecordedAs(metas[n], k) {
      assert LastRecordedAt(metas, k, n);
      assert MetaTagsOf(metas)[k] == CleanText(MetaContent(metas[n]));
    } else {
      assert MetaTagsOf(metas) == MetaTagsOf(p) || MetaName(metas[n]) != k;
      assert k in MetaTagsOf(p) && MetaTagsOf(metas)[k] == MetaTagsOf(p)[k];
      MetaTagsLastWins(p, k);
      var i :| 0 <= i < |p| && LastRecordedAt(p, k, i) && MetaTagsOf(p)[k] == CleanText(MetaContent(p[i]));
      assert forall j :: i <= j < n ==> metas[j] == p[j];
      assert LastRecordedAt(metas, k, i);
    }
  }

  // ---------------------------------------------------------------------------
  // Main content

  /** The CSS selectors `select_one` is asked for, as far as they are used. */
  datatype Selector =
    | TagSel(tag: string)                               // `main`
    | TagAttrSel(tag: string, key: string, value: string) // `div[role="main"]`
    | IdSel(id: string)                                 // `#content`
    | ClassSel(name: string)                            // `.content`

  predicate Matches(sel: Selector, e: Element)
  {
    match sel
    case TagSel(t) => e.tag == t
    case TagAttrSel(t, k, v) => e.tag == t && k in e.attrs && e.attrs[k] == v
    case IdSel(id) => "id" in e.attrs && e.attrs["id"] == id
    case ClassSel(c) => "class" in e.attrs && c in Words(e.attrs["class"])
  }

  /** `soup.select_one(sel)`: the first matching element in document order. */
  function SelectOne(doc: Document, sel: Selector): (r: Option<Element>)
    ensures r.None? <==> forall i :: 0 <= i < |doc| ==> !Matches(sel, doc[i])
    ensures r.Some? ==> exists i :: 0 <= i < |doc| && doc[i] == r.value && Matches(sel, doc[i]) &&
                         forall j :: 0 <= j < i ==> !Matches(sel, doc[j])
  {
    if doc == [] then None
    else if Matches(sel, doc[0]) then Some(doc[0])
    else
      var r := SelectOne(doc[1..], sel);
      assert forall j :: 0 < j < |doc| ==> doc[j] == doc[1..][j - 1];
      r
  }

  const MainSelectors: seq<Selector> :=
    [TagSel("main"), TagSel("article"), TagAttrSel("div", "role", "main"), IdSel("content"), ClassSel("content")]

  /** The element the selector loop stops at: the first match of the first
      selector that matches anything. */
  function FirstSelected(doc: Document, sels: seq<Selector>): Option<Element>
  {
    if sels == [] then None
    else if SelectOne(doc, sels[0]).Some? then SelectOne(doc, sels[0])
    else FirstSelected(doc, sels[1..])
  }

  /** Every selector before position `k` matches nothing. */
  predicate MissesBefore(doc: Document, sels: seq<Selector>, k: int)
    requires k <= |sels|
  {
    forall k' :: 0 <= k' < k ==> SelectOne(doc, sels[k']).None?
  }

  /** The loop finds nothing exactly when no selector matches, and otherwise
      stops at the first selector that matches. */
  lemma {:induction false} FirstSelectedIsFirstMatch(doc: Document, sels: seq<Selector>)
    ensures FirstSelected(doc, sels).None? <==> MissesBefore(doc, sels, |sels|)
    ensures FirstSelected(doc, sels).Some? ==>
      exists k :: 0 <= k < |sels| && SelectOne(doc, sels[k]) == FirstSelected(doc, sels) && MissesBefore(doc, sels, k)
  {
    if sels != [] && SelectOne(doc, sels[0]).None? {
      var t := sels[1..];
      FirstSelectedIsFirstMatch(doc, t);
      assert forall k :: 0 < k < |sels| ==> sels[k] == t[k - 1];
      assert MissesBefore(doc, sels, |sels|) <==> MissesBefore(doc, t, |t|);
      if FirstSelected(doc, t).Some? {
        var k :| 0 <= k < |t| && SelectOne(doc, t[k]) == FirstSelected(doc, t) && MissesBefore(doc, t, k);
        assert MissesBefore(doc, sels, k + 1);
      }
    } else if sels != [] {
      assert MissesBefore(doc, sels, 0);
    }
  }

  /** `main_content` after the selector loop and the body fallback; a missing
      body raises `AttributeError`. */
  function MainContent(doc: Document): (r: Result<string>)
    ensures r.Err? ==> Find(doc, "body").None?
  {
    var picked := match FirstSelected(doc, MainSelectors)
      case Some(e) => CleanText(GetText(e, " "))
      case None => "";
    if picked != "" then Ok(picked)
    else match Find(doc, "body")
      case None => Err("AttributeError: 'NoneType' object has no attribute 'get_text'")
      case Some(body) => Ok(CleanText(GetText(body, " ")))
  }

  /** The selector loop with its `break`, then the fallback to the body. */
  method SelectMainContent(doc: Document) returns (r: Result<string>)
    ensures r == MainContent(doc)
  {
    var main := "";
    for k := 0 to |MainSelectors|
      invariant forall k' :: 0 <= k' < k ==> SelectOne(doc, MainSelectors[k']).None?
      invariant main == ""
    {
      var tag := SelectOne(doc, MainSelectors[k]);
      if tag.Some? {
        main := CleanText(GetText(tag.value, " "));
        assert FirstSelected(doc, MainSelectors) == tag by {
          FirstSelectedAfterMisses(doc, MainSelectors, k);
        }
        break;
      }
    }
    FirstSelectedIsFirstMatch(doc, MainSelectors);
    if main == "" {
      var body := Find(doc, "body");
      if body.None? {
        return Err("AttributeError: 'NoneType' object has no attribute 'get_text'");
      }
      main := CleanText(GetText(body.value, " "));
    }
    r := Ok(main);
  }

  lemma {:induction false} FirstSelectedAfterMisses(doc: Document, sels: seq<Selector>, k: nat)
    requires k < |sels| && SelectOne(doc, sels[k]).Some?
    requires forall k' :: 0 <= k' < k ==> SelectOne(doc, sels[k']).None?
    ensures FirstSelected(doc, sels) == SelectOne(doc, sels[k])
  {
    if k > 0 {
      assert forall k' :: 0 <= k' < k - 1 ==> sels[1..][k'] == sels[k' + 1];
      FirstSelectedAfterMisses(doc, sels[1..], k - 1);
    }
  }

  /** The main content is taken from the body only when no selector matched
      or the matched element has no text, and the call fails only when it
      would have to fall back and there is no body. Whatever it yields is in
      `clean_text`'s shape. */
  lemma MainContentChoice(doc: Document)
    ensures var sel := FirstSelected(doc, MainSelectors);
            var picked := if sel.Some? then CleanText(GetText(sel.value, " ")) else "";
      && (MainContent(doc).Err? <==> picked == "" && Find(doc, "body").None?)
      && (picked != "" ==> MainContent(doc) == Ok(picked))
      && (MainContent(doc).Ok? ==> IsClean(MainContent(doc).value))
  {
    var sel := FirstSelected(doc, MainSelectors);
    if sel.Some? {
      CleanTextIsClean(GetText(sel.value, " "));
    }
    var body := Find(doc, "body");
    if body.Some? {
      CleanTextIsClean(GetText(body.value, " "));
    }
  }

  // ---------------------------------------------------------------------------
  // Structured data

  predicate IsLdJson(e: Element)
  {
    e.tag == "script" && "type" in e.attrs && e.attrs["type"] == "application/ld+json"
  }

  /** `soup.find_all('script', type='application/ld+json')`. */
  function LdJsonScripts(doc: Document): (r: Document)
    ensures forall i :: 0 <= i < |r| ==> IsLdJson(r[i])
  {
    if doc == [] then []
    else (if IsLdJson(doc[0]) then [doc[0]] else []) + LdJsonScripts(doc[1..])
  }

  /** Every ld+json script is found. */
  lemma {:induction false} LdJsonScriptsComplete(doc: Document)
    ensures forall i :: 0 <= i < |doc| && IsLdJson(doc[i]) ==> doc[i] in LdJsonScripts(doc)
  {
    if doc != [] {
      LdJsonScriptsComplete(doc[1..]);
      assert forall i :: 1 <= i < |doc| ==> doc[i] == doc[1..][i - 1];
    }
  }

  /** The scripts are found in document order. */
  lemma {:induction false} LdJsonScriptsAppend(a: Document, b: Document)
    ensures LdJsonScripts(a + b) == LdJsonScripts(a) + LdJsonScripts(b)
  {
    if a == [] {
      assert a + b == b;
    } else {
      assert (a + b)[1..] == a[1..] + b;
      LdJsonScriptsAppend(a[1..], b);
    }
  }

  /** The blocks that parse, in document order; a script without a single
      string or with text that is not JSON contributes nothing. */
  function ParsedBlocks(parseJson: string -> Option<Value>, scripts: seq<Element>): seq<Value>
  {
    if scripts == [] then []
    else
      var prev := ParsedBlocks(parseJson, scripts[..|scripts| - 1]);
      var s := scripts[|scripts| - 1];
      if s.sole.Some? && parseJson(s.sole.value).Some? then prev + [parseJson(s.sole.value).value] else prev
  }

  /** The blocks of one more script. */
  lemma ParsedBlocksSnoc(parseJson: string -> Option<Value>, scripts: seq<Element>, i: nat)
    requires i < |scripts|
    ensures var s := scripts[i];
      ParsedBlocks(parseJson, scripts[..i + 1]) ==
        ParsedBlocks(parseJson, scripts[..i]) + (if s.sole.Some? && parseJson(s.sole.value).Some? then [parseJson(s.sole.value).value] else [])
  {
    assert scripts[..i + 1][..i] == scripts[..i];
  }

  predicate AllHaveString(scripts: seq<Element>)
  {
    forall i :: 0 <= i < |scripts| ==> scripts[i].sole.Some?
  }

  /** The structured-data loop as written: `json.loads(script.string)` with
      only `JSONDecodeError` caught, so a script without a single string
      makes `json.loads(None)` raise `TypeError` out of `extract_content`. */
  method StructuredDataAsWritten(parseJson: string -> Option<Value>, doc: Document) returns (r: Result<seq<Value>>)
    ensures r.Err? <==> !AllHaveString(LdJsonScripts(doc))
    ensures r.Ok? ==> r.value == ParsedBlocks(parseJson, LdJsonScripts(doc))
  {
    r := ParseScriptsAsWritten(parseJson, LdJsonScripts(doc));
  }

  /** The loop of `StructuredDataAsWritten` over the scripts found. */
  method ParseScriptsAsWritten(parseJson: string -> Option<Value>, scripts: seq<Element>) returns (r: Result<seq<Value>>)
    ensures r.Err? <==> !AllHaveString(scripts)
    ensures r.Ok? ==> r.value == ParsedBlocks(parseJson, scripts)
  {
    var data: seq<Value> := [];
    for i := 0 to |scripts|
      invariant data == ParsedBlocks(parseJson, scripts[..i])
      invariant forall j :: 0 <= j < i ==> scripts[j].sole.Some?
    {
      ParsedBlocksSnoc(parseJson, scripts, i);
      var s := scripts[i];
      if s.sole.None? {
        assert !AllHaveString(scripts);
        return Err("TypeError: the JSON object must be str, bytes or bytearray, not NoneType");
      }
      var parsed := parseJson(s.sole.value);
      if parsed.Some? {
        data := data + [parsed.value];
      }
    }
    assert scripts[..|scripts|] == scripts;
    r := Ok(data);
  }

  /** The structured-data loop with scripts that have no single string
      skipped like malformed ones. */
  method StructuredData(parseJson: string -> Option<Value>, doc: Document) returns (data: seq<Value>)
    ensures data == ParsedBlocks(parseJson, LdJsonScripts(doc))
  {
    var scripts := LdJsonScripts(doc);
    data := [];
    for i := 0 to |scripts|
      invariant data == ParsedBlocks(parseJson, scripts[..i])
    {
      ParsedBlocksSnoc(parseJson, scripts, i);
      var s := scripts[i];
      if s.sole.Some? {
        var parsed := parseJson(s.sole.value);
        if parsed.Some? {
          data := data + [parsed.value];
        }
      }
    }
    assert scripts[..|scripts|] == scripts;
  }

  /** Parsing distributes over a split of the script list, so the kept blocks
      come in document order. */
  lemma {:induction false} ParsedBlocksAppend(parseJson: string -> Option<Value>, a: seq<Element>, b: seq<Element>)
    ensures ParsedBlocks(parseJson, a + b) == ParsedBlocks(parseJson, a) + ParsedBlocks(parseJson, b)
    decreases |b|
  {
    if b == [] {
      assert a + b == a;
    } else {
      var n := |b| - 1;
      assert (a + b)[..|a + b| - 1] == a + b[..n];
      ParsedBlocksAppend(parseJson, a, b[..n]);
    }
  }

  /** A single script contributes its parsed value when it has a string that
      parses, and nothing otherwise. */
  lemma ParsedBlocksOfOne(parseJson: string -> Option<Value>, s: Element)
    ensures ParsedBlocks(parseJson, [s]) ==
      if s.sole.Some? && parseJson(s.sole.value).Some? then [parseJson(s.sole.value).value] else []
  {
    assert [s][..0] == [];
  }

  /** One ld+json script with no text: the loop as written fails, the
      corrected loop yields no blocks. */
  lemma EmptyLdJsonScriptFails(parseJson: string -> Option<Value>)
    ensures var doc := [Element("script", map["type" := "application/ld+json"], [], None)];
      LdJsonScripts(doc) == doc && doc[0].sole.None? && ParsedBlocks(parseJson, doc) == []
  {
    var doc := [Element("script", map["type" := "application/ld+json"], [], None)];
    assert doc[1..] == [];
    ParsedBlocksOfOne(parseJson, doc[0]);
  }

  // ---------------------------------------------------------------------------
  // The whole extraction

  /** `extract_content(html_content, base_url)` as written. Every part is
      computed in the source's order. The call fails when `urljoin` rejects
      an href in the anchor loop; then when the main-content step finds
      neither a selected element with text nor a body; and then when some
      ld+json script has no single string, which makes `json.loads(None)`
      raise `TypeError`. */
  method ExtractContentAsWritten(joins: (string, string) -> bool, resolve: (string, string) -> string,
                                 parseJson: string -> Option<Value>, page: Page, base: string)
    returns (r: Result<Record>)
    ensures r.Err? <==>
      !LinksJoin(joins, base, Anchors(page.doc)) || MainContent(page.doc).Err? || !AllHaveString(LdJsonScripts(page.doc))
    ensures !LinksJoin(joins, base, Anchors(page.doc)) ==> r == Err(InvalidUrl)
    ensures LinksJoin(joins, base, Anchors(page.doc)) && MainContent(page.doc).Err? ==> r == Err(MainContent(page.doc).error)
    ensures r.Ok? ==> r.value == PageRecord(base, CleanText(page.rendered), LinksOf(resolve, base, Anchors(page.doc)))
  {
    var title := TitleOf(page.doc);
    var headers := BuildHeaders(page.doc);
    var paragraphs := Paragraphs(page.doc);
    var links := ExtractLinks(joins, resolve, base, page.doc);
    if links.Err? {
      return Err(links.error);
    }
    var metaTags := ExtractMetaTags(page.doc);
    var main := SelectMainContent(page.doc);
    if main.Err? {
      return Err(main.error);
    }
    var allText := CleanText(page.rendered);
    var structured := StructuredDataAsWritten(parseJson, page.doc);
    if structured.Err? {
      return Err(structured.error);
    }
    r := Ok(PageRecord(base, allText, links.value));
  }

  /** `extract_content` with the corrected structured-data loop, which skips
      scripts without a single string like malformed ones: only the anchor
      loop and the main-content step can make it fail. */
  method ExtractContent(joins: (string, string) -> bool, resolve: (string, string) -> string,
                        parseJson: string -> Option<Value>, page: Page, base: string)
    returns (r: Result<Record>)
    ensures r.Err? <==> !LinksJoin(joins, base, Anchors(page.doc)) || MainContent(page.doc).Err?
    ensures !LinksJoin(joins, base, Anchors(page.doc)) ==> r == Err(InvalidUrl)
    ensures LinksJoin(joins, base, Anchors(page.doc)) && MainContent(page.doc).Err? ==> r == Err(MainContent(page.doc).error)
    ensures r.Ok? ==> r.value == PageRecord(base, CleanText(page.rendered), LinksOf(resolve, base, Anchors(page.doc)))
  {
    var title := TitleOf(page.doc);
    var headers := BuildHeaders(page.doc);
    var paragraphs := Paragraphs(page.doc);
    var links := ExtractLinks(joins, resolve, base, page.doc);
    if links.Err? {
      return Err(links.error);
    }
    var metaTags := ExtractMetaTags(page.doc);
    var main := SelectMainContent(page.doc);
    if main.Err? {
      return Err(main.error);
    }
    var allText := CleanText(page.rendered);
    var structured := StructuredData(parseJson, page.doc);
    r := Ok(PageRecord(base, allText, links.value));
  }

  /** A page with a body and an empty ld+json script and no anchors: the
      extraction as written fails, the corrected one succeeds. */
  lemma EmptyLdJsonScriptPage(text: string)
    ensures var doc := [Element("body", map[], [text], None), Element("script", map["type" := "application/ld+json"], [], None)];
      Anchors(doc) == [] && MainContent(doc).Ok? && !AllHaveString(LdJsonScripts(doc))
  {
    var body := Element("body", map[], [text], None);
    var script := Element("script", map["type" := "application/ld+json"], [], None);
    var doc := [body, script];
    assert doc[1..] == [script] && [script][1..] == [];
    assert !IsLdJson(body) && IsLdJson(script);
    assert LdJsonScripts([script]) == [script] + LdJsonScripts([]);
    assert LdJsonScripts(doc) == LdJsonScripts([script]);
    assert Find(doc, "body") == Some(body);
    assert MainContent(doc).Ok?;
    assert LdJsonScripts(doc)[0].sole.None?;
    assert Anchors([script]) == [] + Anchors([]);
    assert Anchors(doc) == Anchors([script]);
  }
}
