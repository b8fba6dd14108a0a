/** `dedupe_list(lst)`, written `list(dict.fromkeys(lst))` in the source: the
    elements of a list without repetitions, each at its first occurrence. */
module Lists {

  /** No element occurs twice. */
  predicate Distinct<T(==)>(s: seq<T>)
  {
    forall i, j :: 0 <= i < j < |s| ==> s[i] != s[j]
  }

  /** Index of the first occurrence of `x` in `s`. */
  function FirstIndex<T(==)>(s: seq<T>, x: T): (k: nat)
    requires x in s
    ensures k < |s| && s[k] == x && x !in s[..k]
  {
    if s[0] == x then 0 else 1 + FirstIndex(s[1..], x)
  }

  lemma FirstIndexInPrefix<T>(s: seq<T>, n: nat, x: T)
    requires n <= |s| && x in s[..n]
    ensures x in s && FirstIndex(s, x) == FirstIndex(s[..n], x)
  {
    var k := FirstIndex(s[..n], x);
    var k' := FirstIndex(s, x);
    assert s[k] == x;
    assert forall j :: 0 <= j < k ==> s[j] == s[..n][..k][j];
    assert forall j :: 0 <= j < k' ==> s[j] == s[..k'][j];
  }

  /** An element found at `i` that is absent before `i` has its first
      occurrence there. */
  lemma FirstIndexOfFirstNew<T>(s: seq<T>, i: nat, x: T)
    requires i < |s| && s[i] == x && x !in s[..i]
    ensures x in s && FirstIndex(s, x) == i
  {
  }

  /** `list(dict.fromkeys(s))`: keeps the first occurrence of each element. */
  function Dedupe<T(==)>(s: seq<T>): (r: seq<T>)
    ensures Distinct(r)
    ensures forall i :: 0 <= i < |r| ==> r[i] in s
    ensures forall i :: 0 <= i < |s| ==> s[i] in r
    ensures |r| <= |s|
  {
    if s == [] then []
    else
      var d := Dedupe(s[..|s| - 1]);
      var x := s[|s| - 1];
      assert s == s[..|s| - 1] + [x];
      if x in d then d else d + [x]
  }

  lemma DedupeSnoc<T>(s: seq<T>)
    requires s != []
    ensures var d := Dedupe(s[..|s| - 1]);
      Dedupe(s) == if s[|s| - 1] in d then d else d + [s[|s| - 1]]
  {
  }

  /** The kept elements come in the order of their first occurrence in `s`. */
  lemma {:induction false} DedupeKeepsFirstOccurrenceOrder<T>(s: seq<T>)
    ensures forall i, j :: 0 <= i < j < |Dedupe(s)| ==> FirstIndex(s, Dedupe(s)[i]) < FirstIndex(s, Dedupe(s)[j])
  {
    if s != [] {
      var n := |s| - 1;
      var p := s[..n];
      var d := Dedupe(p);
      var x := s[n];
      DedupeKeepsFirstOccurrenceOrder(p);
      var r := Dedupe(s);
      forall i, j | 0 <= i < j < |r| ensures FirstIndex(s, r[i]) < FirstIndex(s, r[j]) {
        FirstIndexInPrefix(s, n, r[i]);
        if j < |d| {
          FirstIndexInPrefix(s, n, r[j]);
        } else {
          assert r[j] == x && x !in p;
          assert FirstIndex(s, x) == n by {
            assert forall k :: 0 <= k < n ==> s[k] == p[k];
          }
        }
      }
    }
  }

  /** Deduplicating a duplicate-free list changes nothing. */
  lemma {:induction false} DedupeOfDistinct<T>(s: seq<T>)
    requires Distinct(s)
    ensures Dedupe(s) == s
  {
    if s != [] {
      var p := s[..|s| - 1];
      assert Distinct(p);
      DedupeOfDistinct(p);
      assert s[|s| - 1] !in p;
      assert s == p + [s[|s| - 1]];
    }
  }
}
