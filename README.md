# Hound: a verified model of its scraping and record-shaping logic

Hound is a pipeline with five stages:

1. It runs Google Custom Search queries.
2. It scrapes the result pages.
3. It extracts text, links and metadata from their HTML.
4. It cleans the documents and enriches them with an LLM.
5. It stores everything in Elasticsearch.

Most of the code is calls into aiohttp, BeautifulSoup, html2text, Elasticsearch and OpenAI. This project models the sequential logic between those calls and proves its properties in Dafny. The modelled logic is:

- the three `extract_content` variants, with `clean_text`, `dedupe_list` and the link deduplication they share;
- the merge-and-count loops of the three scrapers;
- reshaping of search results and Elasticsearch hits;
- construction of the Custom Search query parameters;
- the Elasticsearch bulk action lists;
- the two LLM document projections;
- the keyword/phrase partition;
- the driver script's link records and its bounded `wait_for_indexing` retry loop.

Library calls are not modelled; each becomes a parameter.

- **HTML parser.** A parsed document is the sequence of its elements in document order (`Html.Element`): tag, attributes, text nodes, and what BeautifulSoup's `.string` gives.
- **Rendering, fetching, searching.** The `html2text` rendering, each fetch outcome and each Elasticsearch answer are inputs.
- **URL resolution.** `urljoin`, which resolves references as section 5.2 of RFC 3986 describes, is partial: it raises `ValueError` when `urlsplit` rejects a URL, for instance one with an unmatched `[` in its network location. It is a pair of arbitrary functions: `joins(base, href)` says whether the call returns, and `resolve(base, href)` is what it returns then. Every deduplication property is proved for every such pair.
- **URL parsing.** Whether `urlparse` accepts a string is an arbitrary predicate `parses`.
- **Fallible calls.** `json.loads`, the LLM calls and the `bulk` helper are functions returning `Option`: `None` means the call raised.

Python dictionaries are `map<string, Value>`, where `Values.Value` is a JSON-like datatype that includes `None`. Python's truthiness, `dict.get` and slicing are written out in `Values`. A call that can raise returns a `Result`, and its `Err` case is the exception reaching the caller.

Each source file is modelled in its own form:

- Loops that append, break or update items become methods. They keep the Python loop shape, and their invariants are stated against specification functions.
- The scrapers' `item.update` calls are in-place updates of an `array` of records.
- Comprehensions and single-expression projections are functions.

Modules:

| module | file | models |
|---|---|---|
| `Values` | values.dfy | Python values, truthiness, `dict.get`, slicing, `filter(None, …)`, key-dropping dict comprehensions |
| `Text` | text.dfy | `clean_text`, `str.split()`, `str.strip()`, `str.join` |
| `Lists` | lists.dfy | `dedupe_list` (`list(dict.fromkeys(…))`) |
| `Html` | html.dfy | the document, `find`/`find_all`, `.text`/`get_text`, the shared anchor loop, the URL check done while queueing |
| `ScraperWebScraper` | scraper_webscraper.dfy | search_scraper/webscraper.py |
| `ScraperDataProcessor` | scraper_dataprocessor.dfy | search_scraper/dataprocessor.py |
| `SearchEngine` | search_engine.dfy | search_engine.py |
| `WebScraper` | webscraper.dfy | webscraper.py |
| `SearchParams` | search_params.dfy | search_scraper/search_engine.py lines 35-55 |
| `Keywords` | keywords.dfy | dataprocessor.py lines 41-58 |
| `ElasticHelpers` | elastic_helpers.dfy | the action lists and return values of the two bulk methods in elastic_helpers.py |
| `RagSearch` | rag_search.dfy | `search_es` in rag/run.py |
| `DataProcessorRun` | dataprocessor_run.dfy | `process_document` and the per-batch loop of dataprocessor/run.py |
| `LlmRun` | llm_run.dfy | `process_document` in llm/run.py |
| `Pipeline` | pipeline.dfy | the records built in run.py and `wait_for_indexing` |

## Model

| member | source | states |
|---|---|---|
| Text.CleanTextIsClean | search_scraper/webscraper.py:40-41 | `clean_text` output neither starts nor ends with whitespace, never has two whitespace characters in a row, and its only whitespace character is the plain space |
| Text.CleanTextKeepsWords | search_engine.py:97-98 | `clean_text` keeps exactly the whitespace-separated words of its input, in order: each maximal whitespace run becomes one space and no word is split or merged |
| Text.CleanTextIdempotent | search_scraper/dataprocessor.py:23-24 | cleaning cleaned text changes nothing |
| Text.CleanText | search_scraper/dataprocessor.py:23-24 | `clean_text` is whitespace collapsing followed by stripping; what it yields is stated by `CleanTextIsClean`, `CleanTextKeepsWords` and `CleanTextIdempotent` |
| Lists.Dedupe | search_engine.py:100-101 | `dedupe_list` output has no duplicates, contains exactly the elements of its input, and is never longer |
| Lists.DedupeKeepsFirstOccurrenceOrder | search_engine.py:100-101 | the kept elements come in the order of their first occurrence in the input |
| Lists.DedupeOfDistinct | search_scraper/dataprocessor.py:26-27 | deduplicating a duplicate-free list gives it back unchanged |
| Values.Prefix | rag/run.py:47 | Python's `s[:n]` keeps `min(n, len(s))` leading elements for `n >= 0` and drops `-n` trailing ones for a negative `n` |
| Values.NonEmpty | search_engine.py:137 | `filter(None, …)` on strings keeps exactly the non-empty ones |
| Values.Without | dataprocessor/run.py:53 | the dict comprehension keeps every key outside the dropped set, with its value |
| Html.Find | search_engine.py:128 | `soup.find(tag)` gives an element with that tag from the document, and `None` exactly when no element has the tag |
| Html.FindIsFirst | search_engine.py:128 | `find` gives the first element with the tag: no element before it has that tag |
| Html.FindAll | search_engine.py:106 | `find_all` gives elements of the document that have one of the requested tags |
| Html.FindAllComplete | search_engine.py:106 | every element with one of the requested tags is found |
| Html.FindAllAppend | search_engine.py:106 | `find_all` keeps document order: the matches of two consecutive parts of a document are those of the first part followed by those of the second |
| Html.ExtractLinks | search_scraper/webscraper.py:52-59 | the anchor loop raises `ValueError` exactly when `urljoin` rejects some anchor's href; otherwise it builds exactly the link list of the specification function `LinksOf` |
| Html.LinksLoop | search_scraper/webscraper.py:54-59 | the loop stops at the first href `urljoin` rejects; otherwise its `seen_urls` set always holds exactly the hrefs kept so far and the list is `LinksOf` |
| Html.LinksOf | search_scraper/webscraper.py:52-59 | the link list the anchor loop builds, one anchor at a time; its properties are `LinkHrefsAreDeduped`, `LinkHrefsDistinct`, `LinksCoverAnchors`, `LinkTextIsFirstAnchors` and `LinksInFirstOccurrenceOrder` |
| Html.LinkHrefsAreDeduped | search_scraper/webscraper.py:54-59 | the kept hrefs are the resolved anchor URLs passed through `dedupe_list`, for any `resolve` |
| Html.LinkHrefsDistinct | search_scraper/webscraper.py:52-59 | no two links share an href |
| Html.LinksCoverAnchors | search_scraper/webscraper.py:54-59 | there are at most as many links as anchors with an href; every href is `resolve(base, href)` of some anchor, and every anchor's resolved URL is among the hrefs |
| Html.LinkTextIsFirstAnchors | search_scraper/dataprocessor.py:43-48 | each link's text is the cleaned text of the first anchor that resolves to its href |
| Html.LinksInFirstOccurrenceOrder | search_engine.py:115-120 | links come in the order in which their resolved URLs first occur |
| Html.PageRecord | search_scraper/webscraper.py:61-65 | the returned record has exactly the keys `link`, `all_text` and `links`; `link` is the base URL and the record is truthy |
| Html.TitleOf | search_scraper/dataprocessor.py:30 | the title is `''` without a title element and `None` when the title element has no single string |
| ScraperWebScraper.ExtractContent | search_scraper/webscraper.py:37-65 | the extraction raises exactly when `urljoin` rejects an href; otherwise it is the record of the base URL, the cleaned rendering and the deduplicated links |
| ScraperWebScraper.MergedShape | search_scraper/webscraper.py:88-101 | an item is unchanged when `fetch_and_process_url` returns `None` (its `except` at lines 32-35): the link is not a string, the fetch failed, or the extraction raised on an href; a merged item keeps its keys and values, gains `all_text` (the cleaned rendering) and `links` (the value of the anchor loop's `LinksOf` list, which the link lemmas describe), and its `link` is still the URL it was fetched from |
| ScraperWebScraper.Merged | search_scraper/webscraper.py:88-93 | a merged item keeps the URL it was fetched from under `link`; `MergedShape` states the rest of the merge, including the items left unchanged because the extraction raised |
| ScraperWebScraper.ScrapeUrls | search_scraper/webscraper.py:67-107 | a missing `link` raises while queueing, before any result is merged, and leaves the items as they were (fetches queued for earlier items may already have started); otherwise the same array comes back with every item merged in place, the success count is the number of items whose fetch and extraction both succeeded, and successes plus failures equal the number of items |
| ScraperWebScraper.MergeResults | search_scraper/webscraper.py:85-101 | the merge loop updates every item in place as `Merged` says, counts as successes exactly the items `Successes` counts (an extraction that raised is a failure), and successes plus failures equal the number of items |
| ScraperWebScraper.SuccessesCountFetchedPages | search_scraper/webscraper.py:85-101 | the success counter is the number of items with a string link whose fetch returned a page on which every href joins; an extraction that raises counts as a failure |
| ScraperDataProcessor.HeaderTag | search_scraper/dataprocessor.py:34-35 | `f'h{i}'` for `i` in 1..6 is `h` followed by the digit `i` |
| ScraperDataProcessor.HeaderTagsAreTheTags | search_scraper/dataprocessor.py:34 | `range(1, 7)` yields exactly the names h1 to h6 |
| ScraperDataProcessor.BuildHeaders | search_scraper/dataprocessor.py:33-35 | `headers` has exactly the keys h1 to h6; each holds the deduplicated cleaned texts of that tag and has no duplicates |
| ScraperDataProcessor.HeaderListIsDeduped | search_scraper/dataprocessor.py:35 | a header list holds every cleaned header text exactly once, in first-occurrence order |
| ScraperDataProcessor.Paragraphs | search_scraper/dataprocessor.py:38 | the paragraphs have no duplicates and no empty strings |
| ScraperDataProcessor.ParagraphsAreCleanTexts | search_scraper/dataprocessor.py:38 | the paragraphs are exactly the non-empty cleaned texts of the `p`, `div` and `span` elements, each in `clean_text`'s shape |
| ScraperDataProcessor.ExtractMetaTags | search_scraper/dataprocessor.py:51-56 | the meta loop builds the map of the specification function `MetaTagsOf` over the meta elements |
| ScraperDataProcessor.MetaTagsKeys | search_scraper/dataprocessor.py:52-56 | a name is recorded exactly when some meta element has that name (from `name`, falling back to `property`) and a non-empty content |
| ScraperDataProcessor.MetaTagsLastWins | search_scraper/dataprocessor.py:55-56 | the recorded value is the cleaned content of the last meta element recorded under that name |
| ScraperDataProcessor.SelectOne | search_scraper/dataprocessor.py:61 | `select_one` gives the first matching element, and `None` exactly when nothing matches |
| ScraperDataProcessor.FirstSelectedIsFirstMatch | search_scraper/dataprocessor.py:60-64 | the loop stops at the first selector, in the order main, article, `div[role="main"]`, `#content`, `.content`, that matches anything |
| ScraperDataProcessor.FirstSelectedAfterMisses | search_scraper/dataprocessor.py:60-64 | a selector that matches after all earlier selectors missed gives the selected element |
| ScraperDataProcessor.SelectMainContent | search_scraper/dataprocessor.py:58-68 | the selector loop with `break` and the body fallback compute `MainContent` |
| ScraperDataProcessor.MainContentChoice | search_scraper/dataprocessor.py:59-68 | a non-empty selected text is kept; the body is used only when it is empty; the call fails exactly when it must fall back and there is no body; the result is always in `clean_text`'s shape |
| ScraperDataProcessor.MainContent | search_scraper/dataprocessor.py:58-68 | `main_content` after the selector loop and the body fallback; it can fail only when there is no body, and `MainContentChoice` states when the body is used and that the result is clean |
| ScraperDataProcessor.LdJsonScripts | search_scraper/dataprocessor.py:78 | only `script` elements of type `application/ld+json` are walked |
| ScraperDataProcessor.LdJsonScriptsComplete | search_scraper/dataprocessor.py:78 | every ld+json script of the document is found |
| ScraperDataProcessor.LdJsonScriptsAppend | search_scraper/dataprocessor.py:78 | the scripts are found in document order |
| ScraperDataProcessor.StructuredDataAsWritten | search_scraper/dataprocessor.py:77-83 | as written, the loop raises exactly when some ld+json script has no single string; otherwise it keeps the blocks that parse |
| ScraperDataProcessor.StructuredData | search_scraper/dataprocessor.py:77-83 | with such scripts skipped too, the result is the blocks that parse, in document order (`ParsedBlocks`) |
| ScraperDataProcessor.ParsedBlocksAppend | search_scraper/dataprocessor.py:77-83 | the kept blocks of two runs of scripts are the concatenation of each run's blocks, so document order is kept |
| ScraperDataProcessor.ParsedBlocksOfOne | search_scraper/dataprocessor.py:79-83 | one script contributes its parsed value when its string parses, and nothing otherwise |
| ScraperDataProcessor.EmptyLdJsonScriptFails | search_scraper/dataprocessor.py:80 | one ld+json script with no text has no `.string`, and the corrected loop yields no blocks for it |
| ScraperDataProcessor.ExtractContentAsWritten | search_scraper/dataprocessor.py:19-96 | as written, the call fails exactly when `urljoin` rejects an href, the main-content step fails, or some ld+json script has no single string, with the errors in that order of precedence; otherwise it returns the record of the base URL, the cleaned rendering and the deduplicated links |
| ScraperDataProcessor.ExtractContent | search_scraper/dataprocessor.py:19-96 | with the corrected structured-data loop, the call fails exactly when `urljoin` rejects an href or the main-content step fails, the `urljoin` error first; otherwise it returns the same record |
| ScraperDataProcessor.EmptyLdJsonScriptPage | search_scraper/dataprocessor.py:58-83 | a page with a body, an empty ld+json script and no anchors passes the anchor loop and the main-content step and has a script without a single string, so the extraction as written fails on it and the corrected one does not |
| SearchEngine.Pick | search_engine.py:55-75 | each copied key is present, with the source value and `None` when absent, and no other key is |
| SearchEngine.FormatSearchResults | search_engine.py:53-79 | without an error, the result has exactly `metadata` and `items`; the metadata copies the five response keys; there is one formatted item per input item, in order, with the seven keys. It raises exactly when `items` is not iterable or holds a non-dict |
| SearchEngine.NoItemsKey | search_engine.py:66 | a response without `items` gives no items |
| SearchEngine.SplitSentences | search_engine.py:133 | `re.split` always yields at least one piece; the pieces are fixed by `SplitSentencesRoundTrip`, `SentencesHaveNoCutPoint` and `SentencesEndAtStops` |
| SearchEngine.SplitSentencesRoundTrip | search_engine.py:133 | on cleaned text the sentences joined with one space give back the text, so splitting loses nothing |
| SearchEngine.SentencesHaveNoCutPoint | search_engine.py:133 | no sentence contains `.`, `!` or `?` followed by whitespace |
| SearchEngine.SentencesEndAtStops | search_engine.py:133 | every cut is at a cut point: each sentence but the last is non-empty and ends with `.`, `!` or `?` |
| SearchEngine.FirstSentenceHead | search_engine.py:133 | the first sentence of a non-empty text starts with its first character |
| SearchEngine.FindDescription | search_engine.py:122-125 | `find('meta', attrs={'name': 'description'})` gives an element of the document that is a `meta` named `description`, and `None` exactly when there is none, so `meta_description` stays `''` only then |
| SearchEngine.FindDescriptionIsFirst | search_engine.py:123 | the element found is the first description tag: no earlier element is one |
| SearchEngine.ExtractContent | search_engine.py:93-148 | the extractor raises exactly when `urljoin` rejects an href; otherwise it computes the record `Extraction`: title, h1-h3 lists, paragraphs, links, meta description, deduplicated main content and `all_text` |
| SearchEngine.Extraction | search_engine.py:93-148 | the returned record has exactly the keys title, headers, paragraphs, links, meta_description, main_content and all_text; `MainContentSentences`, `ListsOfExtraction` and `AllTextOrder` state what they hold |
| SearchEngine.MainContentSentences | search_engine.py:127-134 | the main content is `''` without a `main` element; otherwise its sentences rebuild the cleaned `main` text, and the deduplicated sentences are distinct and cover every sentence |
| SearchEngine.ListsOfExtraction | search_engine.py:105-111 | paragraphs are distinct and never empty; header lists are distinct, so `''` occurs in one at most once |
| SearchEngine.AllTextOrder | search_engine.py:136-137 | `all_text` joins the title (when a non-empty string), then the main content (when non-empty), then every paragraph, in that order |
| SearchEngine.NonEmptyAppend | search_engine.py:137 | `filter(None, …)` distributes over concatenation |
| SearchEngine.NonEmptyOfNonEmpty | search_engine.py:137 | filtering strings that are all non-empty changes nothing |
| SearchEngine.Attached | search_engine.py:170-173 | the update sets `extracted_content` and `html_content` and keeps every other key and value |
| SearchEngine.Scraped | search_engine.py:165-173 | for an item whose extraction does not raise, the item gains the extraction of its page and the page's markup exactly when the fetch returned non-empty content, and is unchanged otherwise |
| SearchEngine.ScrapeUrls | search_engine.py:150-176 | a missing or unparsable `link` raises while queueing and leaves the items as they were; otherwise the call succeeds exactly when no extraction raises, and then the same array comes back with every item updated as `Scraped` says; when one raises, the `ValueError` ends the call with the items before the first such one updated and the rest untouched |
| SearchEngine.ScrapeAll | search_engine.py:165-173 | the fetch-and-update loop updates the items in place as `Scraped` says, up to the first item whose extraction raises; it gets through all of them exactly when none raises, and leaves the rest untouched |
| WebScraper.Tagged | webscraper.py:59-62 | the update sets `id` to the item's link and `html_content` to the content, and keeps every other key and value |
| WebScraper.Scraped | webscraper.py:56-67 | an item is tagged exactly when its content is non-empty; empty or missing content leaves it unchanged |
| WebScraper.ScrapeUrls | webscraper.py:32-78 | a missing `link`, or one that `urlparse` rejects (a truthy non-string, or a string `parses` rejects), raises while queueing and leaves the items as they were; the same array is handed back; otherwise one task is queued per item, in input order, with the item's link; every item is updated in place as `Scraped` says; successes are `Successes` and successes plus failures equal the number of items |
| WebScraper.TagAll | webscraper.py:51-71 | the second loop updates every item in place as `Scraped` says, counts as successes exactly the items `Successes` counts, and successes plus failures equal the number of items |
| WebScraper.SuccessesCountScrapedItems | webscraper.py:51-71 | the success counter is the number of items with a string link whose request returned non-empty content |
| SearchParams.JoinedSites | search_scraper/search_engine.py:49 | joining the sites with a vertical bar succeeds exactly when every site is a string |
| SearchParams.JoinedSitesCons | search_scraper/search_engine.py:44-49 | the joined string of a list of sites is built site by site: one site is that site itself, as a string restriction would be, and a site before others is followed by a vertical bar and the join of the rest |
| SearchParams.BuildParams | search_scraper/search_engine.py:35-55 | the keys are the caller's, `q`, `key`, `cx` and `num`, `siteSearch` when the restriction is a truthy string or list, and `siteSearchFilter` exactly when it is truthy. The caller's values win; the defaults and `siteSearchFilter = 'i'` hold where not overridden. A list with a non-string element raises |
| Keywords.Consumed | dataprocessor.py:44-51 | the loop reads between zero and all of the pairs |
| Keywords.Partition | dataprocessor.py:41-55 | the keywords are the one-word pairs and the phrases the other pairs, among the pairs read, in extractor order and cut to the requested sizes. Every output pair is unchanged from the input and of its kind, and no list exceeds its size |
| Keywords.PartitionShape | dataprocessor.py:44-55 | the truncated lists keep only input pairs of their kind and respect the requested sizes |
| Keywords.ConsumedIsFirstFull | dataprocessor.py:50-51 | the loop stops at the first pair after which both lists are exactly full, and reads every pair when that never happens |
| Keywords.EarlyStopIsExact | dataprocessor.py:50-55 | after an early stop both lists have exactly the requested sizes, so the slices change nothing |
| Keywords.NoStopReadsAll | dataprocessor.py:44-51 | without an early stop every pair is read |
| ElasticHelpers.UploadActions | elastic_helpers.py:246-255 | there is one upsert action per document, in order, with `_op_type` `update`, the index, `_id` from the id column, the document and `doc_as_upsert` true; it raises exactly when a document lacks the id column |
| ElasticHelpers.DeleteActions | elastic_helpers.py:279-286 | there is one delete action per id, in order, with the index and that id |
| ElasticHelpers.BulkUpload | elastic_helpers.py:246-265 | the method raises exactly when a document lacks the id column; otherwise it returns the reported success count, or 0 when `bulk` raises |
| ElasticHelpers.BulkDelete | elastic_helpers.py:279-296 | the method returns the reported success count, or 0 when `bulk` raises |
| RagSearch.Reshaped | rag/run.py:52-56 | a result has exactly `id`, `score` and `source`, taken from the hit's `_id`, `_score` and `_source` |
| RagSearch.SearchEs | rag/run.py:37-64 | the results are the first `n` hits reshaped, in hit order; a failed search, an unreadable hit path or a malformed hit gives `[]` |
| RagSearch.TopHitsLength | rag/run.py:46-47 | for `n >= 0`, `min(n, len(hits))` hits are walked |
| RagSearch.NoHitsNoResults | rag/run.py:46 | a response without `hits` walks no hits |
| DataProcessorRun.ProcessDocument | dataprocessor/run.py:37-64 | it raises exactly when `_id` is missing; it returns a document exactly when `_source` is a dict with the text column and cleaning succeeds; the document lacks `links` and the text column, copies every other source key, and has `cleaned_text` set to the LLM result |
| DataProcessorRun.ProcessBatchAsWritten | dataprocessor/run.py:81-111 | as written, the progress is the number of hits visited plus the number skipped; the uploads and the abort on a missing `_id` follow the hits in order |
| DataProcessorRun.ProcessBatch | dataprocessor/run.py:81-111 | in the corrected loop the progress is the number of hits visited, which is every hit unless one lacks `_id` |
| DataProcessorRun.UploadedAreTheUploads | dataprocessor/run.py:92-100 | the documents handed to `bulk_upload_documents` are exactly the processed documents (with a `link`) of the hits that were not already indexed: each one comes from such a hit, and each such hit's document is uploaded |
| DataProcessorRun.NoneSkipped | dataprocessor/run.py:87-90 | no hit is counted as skipped exactly when no hit was already indexed |
| DataProcessorRun.ProgressAsWrittenOvercounts | dataprocessor/run.py:87-111 | as written, without an abort the progress is the number of hits plus the number skipped, so it exceeds the hit count once any hit is skipped |
| DataProcessorRun.OneSkippedHitCountsTwice | dataprocessor/run.py:87-111 | one hit that is already indexed is visited once and moves the bar by two |
| LlmRun.ProcessDocument | llm/run.py:37-59 | it fails exactly when an input key is missing or one of the three calls raises; otherwise `cleaned_text`, `entities` and `relationships` are the chained outputs, `links` and `all_text` are gone, every other source key is copied, and nothing else is added |
| Pipeline.LinkRecord | run.py:126 | the record has exactly `link`, `title` and `snippet`; `link` is copied, and `title` and `snippet` default to `""` |
| Pipeline.LinksToScrape | run.py:125-128 | there is one link record per hit, in order; the comprehension raises exactly when the hit path is unreadable or a hit lacks `_source.link` |
| Pipeline.ScrapeRequest | run.py:130-134 | no request is made exactly when there are no links; otherwise the payload has exactly `entity` (`govtech`) and `links` |
| Pipeline.ItemsToProcess | run.py:159 | the items are exactly the hits' `_source` values, in order |
| Pipeline.WaitForIndexing | run.py:73-90 | the retry loop computes `Waited` from attempt 0 |
| Pipeline.Waited | run.py:73-90 | the outcome of the attempts from a given one on; anything but `False` needs an attempt within the bound, and `WaitedTrue`, `WaitedFalse` and `WaitedLooksWithinBound` state when each outcome comes back |
| Pipeline.WaitedTrue | run.py:75-81 | `True` comes back exactly when some attempt within the bound counts documents and every earlier attempt was retried |
| Pipeline.WaitedFalse | run.py:84-90 | `False` comes back exactly when every attempt within the bound found no documents or `NotFoundError`; a `NotFoundError` does not abort |
| Pipeline.WaitedLooksWithinBound | run.py:75 | at most `max_retries` attempts are made: answers beyond the bound do not matter |

## Left out

- HTTP, concurrency and timing are left out: aiohttp sessions, timeouts, `asyncio.create_task`, `sleep`, `random.uniform` delays and `time.time`. Each fetch outcome is an input consumed in list order, which is what the merge loops observe.
- Logging, `tqdm` setup, `argparse` and `print` are left out; they have no effect on the modelled values.
- BeautifulSoup tree building is left out. What `.string` returns for an element is an input field (`sole`), and CSS selection is modelled only for the five selector forms the main-content list uses.
- html2text rendering is left out: the rendering is part of the fetched `Page`.
- `urljoin`, `urlparse`, `json.loads`, YAKE scoring and the LLM calls are parameters. YAKE scores are of a parameter type and are carried along untouched.
- Python's `\s` is modelled as the characters `str.isspace()` accepts. There is no Unicode normalisation.
- Dict insertion order is not modelled, because records are maps. The order of the query parameters and of record keys is therefore not captured.
- The items of the scrapers are an `array<Record>` of values, so Python's sharing of dicts is not modelled. An item dict that appears twice in the list, or that a caller still holds, would see `item.update` in Python but not in the model. No call site shares items this way.
- `urlparse(url)` is modelled only as far as queueing needs (`Html.UrlparseAccepts`): it accepts falsy values and the strings `parses` accepts, and raises on anything else. webscraper.py and search_engine.py compute `netloc` and never use it.
- Elasticsearch connection setup, index management, search wrappers and the `scroll` paging of dataprocessor/run.py are left out. The batch loop is modelled for one batch of hits, with the existence query's hit count as an input.
- The request loops in llm/run.py and rag/run.py beyond `process_document` and `search_es` are left out. The call made in rag/run.py refers to a function that is neither defined nor imported in that file.
- The success and failure logging after `bulk` is left out; it does not change the return value.
- FastAPI endpoints, pickle I/O and the orchestration in api.py, main.py, api_services.py, search_scraper/run.py and datauploader/run.py are not part of this model.
- The scrapers do no social-media filtering or PDF skipping, and they keep no skip counters and no `scraped` or `processed` flags, so the model has none either.
- The extractors can raise. search_scraper/dataprocessor.py raises when no selector yields text and there is no `body` to fall back to, and all three raise when `urljoin` rejects an href. `ScraperDataProcessor.MainContent` and `Html.ExtractLinks` model these errors.
- A missing title element gives `''`, but a title element without a single string gives `None`. `Html.TitleOf` models both.
- SearchEngine.Extraction, SearchEngine.Scraped: the full record of search_engine.py's extractor is stated by a reference definition. Its separate properties are proved as lemmas (`MainContentSentences`, `ListsOfExtraction`, `AllTextOrder`) and for the shared link loop in `Html`.
- DataProcessorRun.ProcessDocument: an exception other than a missing `_id` is modelled only as a missing `_source`, a missing text column or a failing cleaner. Other exceptions, such as `_source` items that cannot be read, do not arise for maps.
- ScraperDataProcessor.ExtractContentAsWritten, ScraperDataProcessor.ExtractContent: title, headers, paragraphs and meta tags are computed, as in the source, but they are not part of the returned record, so the contracts do not mention them. The structured data are not returned either; they matter only through the `TypeError` of the as-written loop, which `ExtractContentAsWritten` states.

## Findings

| source | as written | input that shows it | evidently intended | confidence | as-written member | corrected member |
|---|---|---|---|---|---|---|
| search_scraper/dataprocessor.py:79-83 | `json.loads(script.string)` is guarded only by `except json.JSONDecodeError`; `.string` is `None` for an ld+json script without a single text child, and `json.loads(None)` raises `TypeError` out of `extract_content` | a page containing `<script type="application/ld+json"></script>` | unusable blocks are skipped silently, as malformed ones are | not executed | ScraperDataProcessor.StructuredDataAsWritten, ScraperDataProcessor.EmptyLdJsonScriptFails, ScraperDataProcessor.ExtractContentAsWritten, ScraperDataProcessor.EmptyLdJsonScriptPage | ScraperDataProcessor.StructuredData, ScraperDataProcessor.ExtractContent |
| dataprocessor/run.py:89 | a hit that is already indexed advances the progress bar at line 89 and again in the `finally` at line 111, so the bar counts it twice and overshoots its total | one batch `[{"_id": "d"}]` whose existence query reports 1 hit: the bar moves by 2 for 1 document | the bar advances once per visited hit | not executed | DataProcessorRun.ProcessBatchAsWritten, DataProcessorRun.OneSkippedHitCountsTwice | DataProcessorRun.ProcessBatch |
