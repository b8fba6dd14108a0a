/** The driver script run.py: the records it builds from Elasticsearch hits
    for the scrape and process endpoints, the early return when there is
    nothing to scrape, and `wait_for_indexing`, which polls the document
    count of an index a bounded number of times. Elasticsearch answers and
    HTTP calls are parameters. */
module Pipeline {
  import opened Values

  /** `es_results.get("hits", {}).get("hits", [])` walked by a comprehension.
      The inner lookup raises when the outer `hits` is not a dict. */
  function HitsOf(results: Record): Result<seq<Value>>
  {
    var outer := Get(results, "hits", Object(map[]));
    if !outer.Object? then Err("AttributeError: object has no attribute 'get'")
    else Iterated(Get(outer.fields, "hits", List([])))
  }

  /** A hit whose `_source` is a dict. */
  predicate HasSource(hit: Value)
  {
    hit.Object? && "_source" in hit.fields && hit.fields["_source"].Object?
  }

  /** A hit the `links_to_scrape` comprehension can read. */
  predicate Linkable(hit: Value)
  {
    HasSource(hit) && "link" in hit.fields["_source"].fields
  }

  /** `{"link": s["link"], "title": s.get("title", ""), "snippet":
      s.get("snippet", "")}` for a hit's `_source` `s`. */
  function LinkRecord(hit: Value): (r: Value)
    requires Linkable(hit)
    ensures var s := hit.fields["_source"].fields;
      && r.Object? && r.fields.Keys == {"link", "title", "snippet"}
      && r.fields["link"] == s["link"]
      && r.fields["title"] == (if "title" in s then s["title"] else Str(""))
      && r.fields["snippet"] == (if "snippet" in s then s["snippet"] else Str(""))
  {
    var s := hit.fields["_source"].fields;
    Object(map["link" := s["link"], "title" := Get(s, "title", Str("")), "snippet" := Get(s, "snippet", Str(""))])
  }

  /** Lines 125-128. */
  function LinksToScrape(results: Record): (r: Result<seq<Value>>)
    ensures r.Ok? <==> HitsOf(results).Ok? && forall i :: 0 <= i < |HitsOf(results).value| ==> Linkable(HitsOf(results).value[i])
    ensures r.Ok? ==> |r.value| == |HitsOf(results).value|
    ensures r.Ok? ==> forall i :: 0 <= i < |r.value| ==> r.value[i] == LinkRecord(HitsOf(results).value[i])
  {
    match HitsOf(results)
    case Err(e) => Err(e)
    case Ok(hits) =>
      if forall i :: 0 <= i < |hits| ==> Linkable(hits[i]) then
        Ok(seq(|hits|, i requires 0 <= i < |hits| => LinkRecord(hits[i])))
      else Err("KeyError or TypeError reading hit['_source']['link']")
  }

  /** Lines 125-134 up to the request: the payload `call_scrape_links_endpoint`
      posts, or `None` when there are no links and the script returns early
      without calling the endpoint. */
  function ScrapeRequest(results: Record): (r: Result<Option<Record>>)
    ensures r.Err? <==> LinksToScrape(results).Err?
    ensures r.Ok? ==> (r.value.None? <==> LinksToScrape(results).value == [])
    ensures r.Ok? && r.value.Some? ==>
      && r.value.value.Keys == {"entity", "links"}
      && r.value.value["links"] == List(LinksToScrape(results).value)
      && r.value.value["entity"] == Str("govtech")
  {
    match LinksToScrape(results)
    case Err(e) => Err(e)
    case Ok(links) => if links == [] then Ok(None) else Ok(Some(map["entity" := Str("govtech"), "links" := List(links)]))
  }

  /** Line 159: the `_source` of every hit, in order. */
  function ItemsToProcess(results: Record): (r: Result<seq<Value>>)
    ensures r.Ok? <==> HitsOf(results).Ok? && forall i :: 0 <= i < |HitsOf(results).value| ==> IsSourced(HitsOf(results).value[i])
    ensures r.Ok? ==> |r.value| == |HitsOf(results).value|
    ensures r.Ok? ==> forall i :: 0 <= i < |r.value| ==> r.value[i] == HitsOf(results).value[i].fields["_source"]
  {
    match HitsOf(results)
    case Err(e) => Err(e)
    case Ok(hits) =>
      if forall i :: 0 <= i < |hits| ==> IsSourced(hits[i]) then
        Ok(seq(|hits|, i requires 0 <= i < |hits| => hits[i].fields["_source"]))
      else Err("KeyError or TypeError reading hit['_source']")
  }

  /** A hit with a `_source` of any kind. */
  predicate IsSourced(hit: Value)
  {
    hit.Object? && "_source" in hit.fields
  }

  // ---------------------------------------------------------------------------
  // wait_for_indexing

  /** What one `count` call answers: a document count, `NotFoundError`, or
      any other exception, which nothing in the function catches. */
  datatype CountAnswer = Count(n: int) | NotFound | Failure(error: string)

  /** An answer after which the loop sleeps and tries again. */
  predicate Retries(a: CountAnswer)
  {
    a.NotFound? || (a.Count? && a.n <= 0)
  }

  predicate Ready(a: CountAnswer)
  {
    a.Count? && a.n > 0
  }

  /** The outcome of the attempts from `attempt` on, with `answer(k)` the
      answer to attempt `k`. */
  function Waited(answer: nat -> CountAnswer, maxRetries: int, attempt: nat): (r: Result<bool>)
    ensures r != Ok(false) ==> attempt < maxRetries
    decreases maxRetries - attempt
  {
    if maxRetries <= attempt then Ok(false)
    else
      match answer(attempt)
      case Count(n) => if n > 0 then Ok(true) else Waited(answer, maxRetries, attempt + 1)
      case NotFound => Waited(answer, maxRetries, attempt + 1)
      case Failure(e) => Err(e)
  }

  /** `wait_for_indexing(index_name, max_retries)`; the sleeps are left out. */
  method WaitForIndexing(answer: nat -> CountAnswer, maxRetries: int) returns (r: Result<bool>)
    ensures r == Waited(answer, maxRetries, 0)
  {
    var attempt: nat := 0;
    while attempt < maxRetries
      invariant Waited(answer, maxRetries, 0) == Waited(answer, maxRetries, attempt)
      decreases maxRetries - attempt
    {
      var a := answer(attempt);
      if a.Count? && a.n > 0 {
        return Ok(true);
      } else if a.Failure? {
        return Err(a.error);
      }
      attempt := attempt + 1;
    }
    r := Ok(false);
  }

  /** `True` comes back exactly when some attempt within the bound finds
      documents and every earlier attempt was retried. */
  lemma {:induction false} WaitedTrue(answer: nat -> CountAnswer, maxRetries: int, attempt: nat)
    ensures Waited(answer, maxRetries, attempt) == Ok(true) <==>
      exists k: nat :: attempt <= k < maxRetries && Ready(answer(k)) && forall j :: attempt <= j < k ==> Retries(answer(j))
    decreases maxRetries - attempt
  {
    if attempt < maxRetries {
      WaitedTrue(answer, maxRetries, attempt + 1);
      if Retries(answer(attempt)) && Waited(answer, maxRetries, attempt) != Ok(true) {
        forall k: nat | attempt <= k < maxRetries && Ready(answer(k))
          ensures exists j :: attempt <= j < k && !Retries(answer(j))
        {
          if k == attempt {
            assert false;
          }
          if forall j :: attempt + 1 <= j < k ==> Retries(answer(j)) {
            assert false;
          }
        }
      }
    }
  }

  /** `False` comes back exactly when every attempt within the bound was
      retried; a `NotFoundError` counts as a failed attempt, not an abort. */
  lemma {:induction false} WaitedFalse(answer: nat -> CountAnswer, maxRetries: int, attempt: nat)
    ensures Waited(answer, maxRetries, attempt) == Ok(false) <==>
      forall j :: attempt <= j < maxRetries ==> Retries(answer(j))
    decreases maxRetries - attempt
  {
    if attempt < maxRetries {
      WaitedFalse(answer, maxRetries, attempt + 1);
    }
  }

  /** At most `max_retries` attempts are made: answers beyond the bound do
      not matter. */
  lemma {:induction false} WaitedLooksWithinBound(a1: nat -> CountAnswer, a2: nat -> CountAnswer, maxRetries: int, attempt: nat)
    requires forall j: nat :: j < maxRetries ==> a1(j) == a2(j)
    ensures Waited(a1, maxRetries, attempt) == Waited(a2, maxRetries, attempt)
    decreases maxRetries - attempt
  {
    if attempt < maxRetries {
      WaitedLooksWithinBound(a1, a2, maxRetries, attempt + 1);
    }
  }
}
