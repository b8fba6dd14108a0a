/** `search_es` of rag/run.py: the hits of an Elasticsearch response, cut to
    the first `n` and reshaped into `{id, score, source}` records. The search
    call is a parameter: the response, or `None` when the call raises. Every
    exception in the function body ends in `[]`. */
module RagSearch {
  import opened Values

  /** `results.get('hits', {}).get('hits', [])`, or `None` where the lookup
      raises (a response or inner `hits` that is not a dict). */
  function HitList(results: Value): Option<Value>
  {
    if !results.Object? then None
    else
      var outer := Get(results.fields, "hits", Object(map[]));
      if !outer.Object? then None
      else Some(Get(outer.fields, "hits", List([])))
  }

  /** A hit the loop body can read: a dict with `_id`, `_score` and `_source`. */
  predicate IsHit(hit: Value)
  {
    hit.Object? && "_id" in hit.fields && "_score" in hit.fields && "_source" in hit.fields
  }

  /** `{'id': hit['_id'], 'score': hit['_score'], 'source': hit['_source']}`. */
  function Reshaped(hit: Value): (r: Value)
    requires IsHit(hit)
    ensures r.Object? && r.fields.Keys == {"id", "score", "source"}
    ensures r.fields["id"] == hit.fields["_id"] && r.fields["score"] == hit.fields["_score"]
    ensures r.fields["source"] == hit.fields["_source"]
  {
    Object(map["id" := hit.fields["_id"], "score" := hit.fields["_score"], "source" := hit.fields["_source"]])
  }

  /** The hits the loop walks, `hits[:n]`, or `None` where getting them
      raises. Slicing anything but a list either raises or, for a string,
      yields characters on which the loop body raises (or nothing at all);
      either way the result is `[]`, so only lists are kept. */
  function TopHits(response: Option<Value>, n: int): Option<seq<Value>>
  {
    if response.None? then None
    else
      match HitList(response.value)
      case Some(List(hits)) => Some(Prefix(hits, n))
      case _ => None
  }

  predicate AllHits(hits: seq<Value>)
  {
    forall i :: 0 <= i < |hits| ==> IsHit(hits[i])
  }

  /** `search_es(index_name, query_text, fields, n)`. */
  method SearchEs(response: Option<Value>, n: int) returns (r: seq<Value>)
    ensures TopHits(response, n).None? ==> r == []
    ensures TopHits(response, n).Some? && !AllHits(TopHits(response, n).value) ==> r == []
    ensures TopHits(response, n).Some? && AllHits(TopHits(response, n).value) ==>
      && |r| == |TopHits(response, n).value|
      && forall i :: 0 <= i < |r| ==> r[i] == Reshaped(TopHits(response, n).value[i])
  {
    var top := TopHits(response, n);
    if top.None? {
      return [];
    }
    var hits := top.value;
    var processed: seq<Value> := [];
    for i := 0 to |hits|
      invariant |processed| == i && AllHits(hits[..i])
      invariant forall j :: 0 <= j < i ==> processed[j] == Reshaped(hits[j])
    {
      if !IsHit(hits[i]) {
        assert !AllHits(hits) by { assert hits[i] == hits[i]; }
        return [];
      }
      assert hits[..i + 1] == hits[..i] + [hits[i]];
      processed := processed + [Reshaped(hits[i])];
    }
    assert hits[..|hits|] == hits;
    r := processed;
  }

  /** The number of hits walked is `min(n, len(hits))` for a non-negative
      `n`, and a response without `hits` gives none. */
  lemma TopHitsLength(response: Value, n: int)
    requires HitList(response).Some? && HitList(response).value.List? && 0 <= n
    ensures |TopHits(Some(response), n).value| == Min(n, |HitList(response).value.xs|)
  {
  }

  lemma NoHitsNoResults(response: Record, n: int)
    requires "hits" !in response
    ensures TopHits(Some(Object(response)), n) == Some([])
  {
  }
}
