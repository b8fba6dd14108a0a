/** dataprocessor/run.py: `process_document` projects a raw hit to the
    document to index (the text column and `links` dropped, the LLM's cleaned
    text added), and the inner loop of `run` walks one batch of hits, skips
    the ones already in the processed index, uploads the rest and advances a
    progress bar. The LLM cleaner, the existence query and the upload's
    Elasticsearch call are parameters. */
module DataProcessorRun {
  import opened Values
  import opened Lists

  /** `process_document(doc, text_column)`, with `clean` the LLM's answer
      (`None` when it raises). Any exception in the body makes the result
      `None`, except a missing `_id`: the handler reads `doc['_id']` again,
      so that one escapes to the caller. */
  function ProcessDocument(clean: Value -> Option<Value>, doc: Record, textColumn: string)
    : (r: Result<Option<Record>>)
    ensures r.Err? <==> "_id" !in doc
    ensures r.Ok? && r.value.Some? <==>
      && "_id" in doc && "_source" in doc && doc["_source"].Object?
      && textColumn in doc["_source"].fields
      && clean(doc["_source"].fields[textColumn]).Some?
    ensures r.Ok? && r.value.Some? ==>
      var source := doc["_source"].fields;
      var p := r.value.value;
      && "links" !in p
      && (textColumn != "cleaned_text" ==> textColumn !in p)
      && (forall k :: k in source && k != "links" && k != textColumn && k != "cleaned_text" ==>
            k in p && p[k] == source[k])
      && (forall k :: k in p ==> k in source || k == "cleaned_text")
      && "cleaned_text" in p && p["cleaned_text"] == clean(source[textColumn]).value
  {
    if "_id" !in doc then Err("KeyError: '_id'")
    else if "_source" !in doc || !doc["_source"].Object? || textColumn !in doc["_source"].fields then Ok(None)
    else
      var source := doc["_source"].fields;
      match clean(source[textColumn])
      case None => Ok(None)
      case Some(cleaned) => Ok(Some(Without(source, {"links", textColumn})["cleaned_text" := cleaned]))
  }

  /** What the loop body does with one hit. */
  datatype Step =
    | Abort            // `doc['_id']` raised, again inside the handler
    | Skip             // already in the processed index
    | Fail             // the existence query, the processing or the upload failed
    | Upload(doc: Record)

  /** One hit's step, with `existing` the hit count of the existence query
      (`None` when that query raises). A processed document without `link`
      makes the upload raise `KeyError` while it builds its actions. */
  function StepOf(clean: Value -> Option<Value>, textColumn: string, doc: Record, existing: Option<int>): Step
  {
    if "_id" !in doc then Abort
    else if existing.None? then Fail
    else if existing.value > 0 then Skip
    else
      var processed := ProcessDocument(clean, doc, textColumn);
      if processed.Ok? && processed.value.Some? && "link" in processed.value.value then Upload(processed.value.value)
      else Fail
  }

  function Steps(clean: Value -> Option<Value>, textColumn: string, docs: seq<Record>, existing: seq<Option<int>>)
    : (r: seq<Step>)
    requires |existing| == |docs|
    ensures |r| == |docs|
    ensures forall i :: 0 <= i < |docs| ==> r[i] == StepOf(clean, textColumn, docs[i], existing[i])
  {
    seq(|docs|, i requires 0 <= i < |docs| => StepOf(clean, textColumn, docs[i], existing[i]))
  }

  /** The documents handed to the upload, in order. */
  function Uploaded(steps: seq<Step>): (r: seq<Record>)
    ensures |r| <= |steps|
  {
    if steps == [] then []
    else Uploaded(steps[..|steps| - 1]) + (if steps[|steps| - 1].Upload? then [steps[|steps| - 1].doc] else [])
  }

  /** Every uploaded document comes from an upload step, and every upload
      step's document is uploaded. */
  lemma {:induction false} UploadedAreTheUploads(steps: seq<Step>)
    ensures var r := Uploaded(steps);
      && (forall k :: 0 <= k < |r| ==> exists i :: 0 <= i < |steps| && steps[i].Upload? && steps[i].doc == r[k])
      && (forall i :: 0 <= i < |steps| && steps[i].Upload? ==> steps[i].doc in r)
  {
    if steps != [] {
      var n := |steps| - 1;
      var p := steps[..n];
      UploadedAreTheUploads(p);
      var r := Uploaded(steps);
      var q := Uploaded(p);
      assert r == q + (if steps[n].Upload? then [steps[n].doc] else []);
      forall k | 0 <= k < |r|
        ensures exists i :: 0 <= i < |steps| && steps[i].Upload? && steps[i].doc == r[k]
      {
        if k < |q| {
          var i :| 0 <= i < |p| && p[i].Upload? && p[i].doc == q[k];
          assert steps[i] == p[i];
        } else {
          assert steps[n].Upload? && steps[n].doc == r[k];
        }
      }
      forall i | 0 <= i < |steps| && steps[i].Upload?
        ensures steps[i].doc in r
      {
        if i < n {
          assert p[i] == steps[i];
        }
      }
    }
  }

  /** How many hits are skipped. */
  function Skipped(steps: seq<Step>): (n: nat)
    ensures n <= |steps|
  {
    if steps == [] then 0
    else Skipped(steps[..|steps| - 1]) + (if steps[|steps| - 1] == Skip then 1 else 0)
  }

  /** No hit is skipped exactly when no step is a skip. */
  lemma {:induction false} NoneSkipped(steps: seq<Step>)
    ensures Skipped(steps) == 0 <==> forall i :: 0 <= i < |steps| ==> steps[i] != Skip
  {
    if steps != [] {
      var n := |steps| - 1;
      NoneSkipped(steps[..n]);
      assert forall i :: 0 <= i < n ==> steps[..n][i] == steps[i];
    }
  }

  /** How many hits the loop visits: all of them, or up to and including the
      first whose `_id` is missing. */
  function Visited(steps: seq<Step>): (n: nat)
    ensures n <= |steps|
  {
    if Abort in steps then FirstIndex(steps, Abort) + 1 else |steps|
  }

  /** The progress the loop reports as written: the final `pbar.update(1)`
      for every visited hit, plus the one before `continue` for every
      skipped hit. */
  function ProgressAsWritten(steps: seq<Step>): nat
  {
    Visited(steps) + Skipped(steps[..Visited(steps)])
  }

  /** The loop of lines 81-111 as written, over one batch. */
  method ProcessBatchAsWritten(clean: Value -> Option<Value>, textColumn: string,
                               docs: seq<Record>, existing: seq<Option<int>>)
    returns (uploads: seq<Record>, progress: nat, aborted: bool)
    requires |existing| == |docs|
    ensures var steps := Steps(clean, textColumn, docs, existing);
      var n := if aborted then Visited(steps) - 1 else |docs|;
      && aborted == (Abort in steps)
      && uploads == Uploaded(steps[..n])
      && progress == ProgressAsWritten(steps)
  {
    ghost var steps := Steps(clean, textColumn, docs, existing);
    uploads, progress, aborted := [], 0, false;
    for i := 0 to |docs|
      invariant Abort !in steps[..i]
      invariant uploads == Uploaded(steps[..i])
      invariant progress == i + Skipped(steps[..i])
    {
      assert steps[..i + 1][..i] == steps[..i];
      var step := StepOf(clean, textColumn, docs[i], existing[i]);
      if step == Abort {
        progress := progress + 1;
        aborted := true;
        FirstIndexOfFirstNew(steps, i, Abort);
        assert Skipped(steps[..i + 1]) == Skipped(steps[..i]);
        return;
      }
      if step == Skip {
        progress := progress + 1;
      }
      if step.Upload? {
        uploads := uploads + [step.doc];
      }
      progress := progress + 1;
    }
    assert steps[..|docs|] == steps;
  }

  /** The same loop with the progress bar advanced once per visited hit, as
      its total (the number of hits) expects. */
  method ProcessBatch(clean: Value -> Option<Value>, textColumn: string,
                      docs: seq<Record>, existing: seq<Option<int>>)
    returns (uploads: seq<Record>, progress: nat, aborted: bool)
    requires |existing| == |docs|
    ensures var steps := Steps(clean, textColumn, docs, existing);
      var n := if aborted then Visited(steps) - 1 else |docs|;
      && aborted == (Abort in steps)
      && uploads == Uploaded(steps[..n])
      && progress == Visited(steps)
    ensures !aborted ==> progress == |docs|
  {
    ghost var steps := Steps(clean, textColumn, docs, existing);
    uploads, progress, aborted := [], 0, false;
    for i := 0 to |docs|
      invariant Abort !in steps[..i]
      invariant uploads == Uploaded(steps[..i])
      invariant progress == i
    {
      assert steps[..i + 1][..i] == steps[..i];
      var step := StepOf(clean, textColumn, docs[i], existing[i]);
      if step == Abort {
        progress := progress + 1;
        aborted := true;
        FirstIndexOfFirstNew(steps, i, Abort);
        return;
      }
      if step.Upload? {
        uploads := uploads + [step.doc];
      }
      progress := progress + 1;
    }
    assert steps[..|docs|] == steps;
  }

  /** As written, the progress overshoots the number of visited hits by the
      number of skipped ones. */
  lemma ProgressAsWrittenOvercounts(steps: seq<Step>)
    requires Abort !in steps
    ensures ProgressAsWritten(steps) == |steps| + Skipped(steps)
    ensures Skip in steps ==> ProgressAsWritten(steps) > |steps|
  {
    assert steps[..|steps|] == steps;
    if Skip in steps {
      SkipCounted(steps);
    }
  }

  lemma {:induction false} SkipCounted(steps: seq<Step>)
    requires Skip in steps
    ensures Skipped(steps) > 0
  {
    var n := |steps| - 1;
    if steps[n] != Skip {
      assert Skip in steps[..n] by {
        var k :| 0 <= k < |steps| && steps[k] == Skip;
        assert steps[..n][k] == Skip;
      }
      SkipCounted(steps[..n]);
    }
  }

  /** One hit that is already indexed moves the bar by two. */
  lemma OneSkippedHitCountsTwice(clean: Value -> Option<Value>, textColumn: string)
    ensures var docs := [map["_id" := Str("d")]];
      var steps := Steps(clean, textColumn, docs, [Some(1)]);
      steps == [Skip] && ProgressAsWritten(steps) == 2 && Visited(steps) == 1
  {
    var docs := [map["_id" := Str("d")]];
    var steps := Steps(clean, textColumn, docs, [Some(1)]);
    assert steps[0] == Skip;
    assert steps == [Skip];
    assert steps[..0] == [];
  }
}
