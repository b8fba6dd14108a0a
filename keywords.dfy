/** The partition step of `extract_keywords_and_phrases` in dataprocessor.py:
    the extractor's `(keyword, score)` pairs, best first, are split into
    single-word keywords and multi-word phrases; the loop stops once both
    lists are exactly full and both are then cut to their requested sizes.
    Scores are carried along untouched, so their type is a parameter. */
module Keywords {
  import opened Values
  import opened Text

  /** `len(keyword.split()) == 1`. */
  predicate OneWord(keyword: string)
  {
    |Words(keyword)| == 1
  }

  predicate IsKeyword<S>(pair: (string, S))
  {
    OneWord(pair.0)
  }

  predicate IsPhrase<S>(pair: (string, S))
  {
    !OneWord(pair.0)
  }

  /** The stop test, after the pairs seen so far have been appended. */
  predicate Full<S>(seen: seq<(string, S)>, numKeywords: int, numPhrases: int)
  {
    |Filter(IsKeyword, seen)| == numKeywords && |Filter(IsPhrase, seen)| == numPhrases
  }

  /** How many pairs the loop reads when it starts looking for the stop at
      position `from`: up to and including the first pair after which both
      lists are exactly full, or all of them. */
  function Consumed<S>(pairs: seq<(string, S)>, numKeywords: int, numPhrases: int, from: nat): (n: nat)
    requires from <= |pairs|
    ensures from <= n <= |pairs|
    decreases |pairs| - from
  {
    if from == |pairs| then from
    else if Full(pairs[..from + 1], numKeywords, numPhrases) then from + 1
    else Consumed(pairs, numKeywords, numPhrases, from + 1)
  }

  /** Lines 41-58: the partition loop with its `break`, then the two slices. */
  method Partition<S>(pairs: seq<(string, S)>, numKeywords: int, numPhrases: int)
    returns (keywords: seq<(string, S)>, phrases: seq<(string, S)>)
    ensures var n := Consumed(pairs, numKeywords, numPhrases, 0);
      && keywords == Prefix(Filter(IsKeyword, pairs[..n]), numKeywords)
      && phrases == Prefix(Filter(IsPhrase, pairs[..n]), numPhrases)
    ensures forall i :: 0 <= i < |keywords| ==> OneWord(keywords[i].0) && keywords[i] in pairs
    ensures forall i :: 0 <= i < |phrases| ==> !OneWord(phrases[i].0) && phrases[i] in pairs
    ensures 0 <= numKeywords ==> |keywords| <= numKeywords
    ensures 0 <= numPhrases ==> |phrases| <= numPhrases
  {
    keywords, phrases := [], [];
    ghost var n := |pairs|;
    for i := 0 to |pairs|
      invariant keywords == Filter(IsKeyword, pairs[..i]) && phrases == Filter(IsPhrase, pairs[..i])
      invariant Consumed(pairs, numKeywords, numPhrases, 0) == Consumed(pairs, numKeywords, numPhrases, i)
      invariant n == |pairs|
    {
      var (keyword, score) := pairs[i];
      PartitionStep(pairs, numKeywords, numPhrases, i);
      if |Words(keyword)| == 1 {
        keywords := keywords + [(keyword, score)];
      } else {
        phrases := phrases + [(keyword, score)];
      }
      if |keywords| == numKeywords && |phrases| == numPhrases {
        n := i + 1;
        break;
      }
    }
    assert n == Consumed(pairs, numKeywords, numPhrases, 0);
    keywords := Prefix(keywords, numKeywords);
    phrases := Prefix(phrases, numPhrases);
    PartitionShape(pairs, numKeywords, numPhrases, n);
  }

  /** One turn of the loop: the pair at `i` goes to the list of its kind. */
  lemma PartitionStep<S>(pairs: seq<(string, S)>, numKeywords: int, numPhrases: int, i: nat)
    requires i < |pairs|
    ensures Filter(IsKeyword, pairs[..i + 1]) == Filter(IsKeyword, pairs[..i]) + (if OneWord(pairs[i].0) then [pairs[i]] else [])
    ensures Filter(IsPhrase, pairs[..i + 1]) == Filter(IsPhrase, pairs[..i]) + (if OneWord(pairs[i].0) then [] else [pairs[i]])
    ensures Consumed(pairs, numKeywords, numPhrases, i) ==
      if Full(pairs[..i + 1], numKeywords, numPhrases) then i + 1 else Consumed(pairs, numKeywords, numPhrases, i + 1)
  {
    assert pairs[..i + 1] == pairs[..i] + [pairs[i]];
    FilterAppend(IsKeyword, pairs[..i], pairs[i]);
    FilterAppend(IsPhrase, pairs[..i], pairs[i]);
  }

  /** Both outputs keep only pairs of their kind, taken unchanged from the
      input, and respect the requested sizes. */
  lemma PartitionShape<S>(pairs: seq<(string, S)>, numKeywords: int, numPhrases: int, n: nat)
    requires n <= |pairs|
    ensures var keywords := Prefix(Filter(IsKeyword, pairs[..n]), numKeywords);
      && (forall i :: 0 <= i < |keywords| ==> OneWord(keywords[i].0) && keywords[i] in pairs)
      && (0 <= numKeywords ==> |keywords| <= numKeywords)
    ensures var phrases := Prefix(Filter(IsPhrase, pairs[..n]), numPhrases);
      && (forall i :: 0 <= i < |phrases| ==> !OneWord(phrases[i].0) && phrases[i] in pairs)
      && (0 <= numPhrases ==> |phrases| <= numPhrases)
  {
    var ks := Filter(IsKeyword, pairs[..n]);
    var ps := Filter(IsPhrase, pairs[..n]);
    assert forall x :: x in pairs[..n] ==> x in pairs;
    var keywords := Prefix(ks, numKeywords);
    var phrases := Prefix(ps, numPhrases);
    assert forall i :: 0 <= i < |keywords| ==> keywords[i] == ks[i];
    assert forall i :: 0 <= i < |phrases| ==> phrases[i] == ps[i];
  }

  /** The loop reads exactly up to the first point where both lists are
      exactly full: it has not been full before, and it is full there unless
      every pair was read. */
  lemma {:induction false} ConsumedIsFirstFull<S>(pairs: seq<(string, S)>, numKeywords: int, numPhrases: int, from: nat)
    requires from <= |pairs|
    ensures var n := Consumed(pairs, numKeywords, numPhrases, from);
      && (n < |pairs| ==> n > from && Full(pairs[..n], numKeywords, numPhrases))
      && (forall j :: from < j < n ==> !Full(pairs[..j], numKeywords, numPhrases))
    decreases |pairs| - from
  {
    if from < |pairs| && !Full(pairs[..from + 1], numKeywords, numPhrases) {
      ConsumedIsFirstFull(pairs, numKeywords, numPhrases, from + 1);
    }
  }

  /** When the loop breaks early, both lists are already their requested
      sizes, so the slices change nothing. */
  lemma EarlyStopIsExact<S>(pairs: seq<(string, S)>, numKeywords: int, numPhrases: int)
    requires Consumed(pairs, numKeywords, numPhrases, 0) < |pairs|
    ensures var n := Consumed(pairs, numKeywords, numPhrases, 0);
      && Prefix(Filter(IsKeyword, pairs[..n]), numKeywords) == Filter(IsKeyword, pairs[..n])
      && Prefix(Filter(IsPhrase, pairs[..n]), numPhrases) == Filter(IsPhrase, pairs[..n])
      && |Filter(IsKeyword, pairs[..n])| == numKeywords
      && |Filter(IsPhrase, pairs[..n])| == numPhrases
  {
    ConsumedIsFirstFull(pairs, numKeywords, numPhrases, 0);
  }

  /** Without an early stop every pair is read. */
  lemma NoStopReadsAll<S>(pairs: seq<(string, S)>, numKeywords: int, numPhrases: int)
    requires forall j :: 0 < j <= |pairs| ==> !Full(pairs[..j], numKeywords, numPhrases)
    ensures Consumed(pairs, numKeywords, numPhrases, 0) == |pairs|
  {
    ConsumedIsFirstFull(pairs, numKeywords, numPhrases, 0);
  }
}
