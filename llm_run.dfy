/** `process_document` of llm/run.py: a raw hit projected to the document to
    index, with `links` and `all_text` dropped and the three LLM outputs
    added. The three LLM calls are parameters, each `None` when it raises;
    nothing in this function catches, so every failure reaches the caller. */
module LlmRun {
  import opened Values

  /** `process_document(doc)`. Cleaning reads `all_text`, entity extraction
      reads the cleaned text, and relationship extraction reads both. */
  function ProcessDocument(
    clean: Value -> Option<Value>,
    extractEntities: Value -> Option<Value>,
    extractRelationships: (Value, Value) -> Option<Value>,
    doc: Record): (r: Result<Record>)
    ensures r.Err? <==>
      || "_id" !in doc || "_source" !in doc || !doc["_source"].Object?
      || "all_text" !in doc["_source"].fields
      || clean(doc["_source"].fields["all_text"]).None?
      || extractEntities(clean(doc["_source"].fields["all_text"]).value).None?
      || extractRelationships(clean(doc["_source"].fields["all_text"]).value,
                              extractEntities(clean(doc["_source"].fields["all_text"]).value).value).None?
    ensures r.Ok? ==>
      var source := doc["_source"].fields;
      var cleaned := clean(source["all_text"]);
      && cleaned.Some?
      && extractEntities(cleaned.value).Some?
      && extractRelationships(cleaned.value, extractEntities(cleaned.value).value).Some?
      && "cleaned_text" in r.value && r.value["cleaned_text"] == cleaned.value
      && "entities" in r.value && r.value["entities"] == extractEntities(cleaned.value).value
      && "relationships" in r.value
      && r.value["relationships"] == extractRelationships(cleaned.value, extractEntities(cleaned.value).value).value
    ensures r.Ok? ==>
      var source := doc["_source"].fields;
      && "links" !in r.value && "all_text" !in r.value
      && (forall k :: k in r.value ==> k in source || k == "cleaned_text" || k == "entities" || k == "relationships")
      && (forall k :: (k in source && k != "links" && k != "all_text" &&
                       k != "cleaned_text" && k != "entities" && k != "relationships") ==>
            k in r.value && r.value[k] == source[k])
  {
    if "_id" !in doc then Err("KeyError: '_id'")
    else if "_source" !in doc then Err("KeyError: '_source'")
    else if !doc["_source"].Object? then Err("TypeError: '_source' is not a dict")
    else if "all_text" !in doc["_source"].fields then Err("KeyError: 'all_text'")
    else
      var source := doc["_source"].fields;
      match clean(source["all_text"])
      case None => Err("clean_text raised")
      case Some(cleaned) =>
        match extractEntities(cleaned)
        case None => Err("extract_entities raised")
        case Some(entities) =>
          match extractRelationships(cleaned, entities)
          case None => Err("extract_relationships raised")
          case Some(relationships) =>
            Ok(Without(source, {"links", "all_text"})
              ["cleaned_text" := cleaned]["entities" := entities]["relationships" := relationships])
  }
}
