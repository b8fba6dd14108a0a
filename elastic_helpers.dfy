/** The action lists `ESBulkIndexer` of elastic_helpers.py hands to the
    Elasticsearch `bulk` helper, and what its two bulk methods return. The
    `bulk` call itself is a parameter: the success count it reports, or
    `None` when it raises. */
module ElasticHelpers {
  import opened Values

  /** One entry of `bulk_upload_documents`' actions: an upsert of the
      document under its id column. */
  function UploadAction(index: string, document: Record, idCol: string): Record
    requires idCol in document
  {
    map[
      "_op_type" := Str("update"),
      "_index" := Str(index),
      "_id" := document[idCol],
      "doc" := Object(document),
      "doc_as_upsert" := Bool(true)]
  }

  predicate AllHaveKey(documents: seq<Record>, key: string)
  {
    forall i :: 0 <= i < |documents| ==> key in documents[i]
  }

  /** The list comprehension of lines 246-255: `KeyError` when a document
      lacks the id column, one action per document in order otherwise. */
  function UploadActions(index: string, documents: seq<Record>, idCol: string): (r: Result<seq<Record>>)
    ensures r.Ok? <==> AllHaveKey(documents, idCol)
    ensures r.Ok? ==> |r.value| == |documents|
    ensures r.Ok? ==> forall i :: 0 <= i < |documents| ==>
      && r.value[i].Keys == {"_op_type", "_index", "_id", "doc", "doc_as_upsert"}
      && r.value[i]["_op_type"] == Str("update")
      && r.value[i]["_index"] == Str(index)
      && r.value[i]["_id"] == documents[i][idCol]
      && r.value[i]["doc"] == Object(documents[i])
      && r.value[i]["doc_as_upsert"] == Bool(true)
  {
    if AllHaveKey(documents, idCol) then
      Ok(seq(|documents|, i requires 0 <= i < |documents| => UploadAction(index, documents[i], idCol)))
    else Err("KeyError: '" + idCol + "'")
  }

  /** One entry of `bulk_delete_documents`' actions. */
  function DeleteAction(index: string, id: string): Record
  {
    map["_op_type" := Str("delete"), "_index" := Str(index), "_id" := Str(id)]
  }

  /** Lines 279-286: one delete action per id, in order. */
  function DeleteActions(index: string, ids: seq<string>): (r: seq<Record>)
    ensures |r| == |ids|
    ensures forall i :: 0 <= i < |ids| ==>
      && r[i].Keys == {"_op_type", "_index", "_id"}
      && r[i]["_op_type"] == Str("delete")
      && r[i]["_index"] == Str(index)
      && r[i]["_id"] == Str(ids[i])
  {
    seq(|ids|, i requires 0 <= i < |ids| => DeleteAction(index, ids[i]))
  }

  /** What the `try` around `bulk` returns: the reported count, or 0 when
      the call raised. */
  function Reported(outcome: Option<int>): int
  {
    match outcome
    case Some(success) => success
    case None => 0
  }

  /** `bulk_upload_documents`: the actions are built outside the `try`, so a
      missing id column raises to the caller; otherwise the bulk outcome is
      returned as reported. */
  function BulkUpload(bulk: seq<Record> -> Option<int>, index: string, documents: seq<Record>, idCol: string)
    : (r: Result<int>)
    ensures r.Err? <==> !AllHaveKey(documents, idCol)
    ensures r.Ok? && bulk(UploadActions(index, documents, idCol).value).None? ==> r.value == 0
    ensures r.Ok? && bulk(UploadActions(index, documents, idCol).value).Some? ==>
      r.value == bulk(UploadActions(index, documents, idCol).value).value
  {
    match UploadActions(index, documents, idCol)
    case Err(e) => Err(e)
    case Ok(actions) => Ok(Reported(bulk(actions)))
  }

  /** `bulk_delete_documents`: never raises. */
  function BulkDelete(bulk: seq<Record> -> Option<int>, index: string, ids: seq<string>): (r: int)
    ensures bulk(DeleteActions(index, ids)).None? ==> r == 0
    ensures bulk(DeleteActions(index, ids)).Some? ==> r == bulk(DeleteActions(index, ids)).value
  {
    Reported(bulk(DeleteActions(index, ids)))
  }
}
