/** The result ranker, the tail of image classification: pair every class
    probability with its index, sort the pairs by descending probability with
    a stable sort, keep the first five and look up each one's label. */
module Ranker {
  import opened Inference

  /** How many entries the ranking keeps. */
  const TopK: nat := 5

  /** A class index paired with its probability. */
  datatype Entry = Entry(index: nat, probability: real)

  /** x precedes y in the order a stable sort by descending probability gives
      enumerated entries: the higher probability first and, on a tie, the
      lower index, which came first in the input. */
  predicate Before(x: Entry, y: Entry) {
    x.probability > y.probability || (x.probability == y.probability && x.index < y.index)
  }

  predicate RankedOrder(s: seq<Entry>) {
    forall p, q :: 0 <= p < q < |s| ==> Before(s[p], s[q])
  }

  /** The entry stands for class e.index of the probability vector. */
  predicate EntryOf(probs: seq<real>, e: Entry) {
    e.index < |probs| && e.probability == probs[e.index]
  }

  /** The probabilities paired with their positions. */
  function Enumerate(probs: seq<real>): seq<Entry>
  {
    seq(|probs|, k requires 0 <= k < |probs| => Entry(k, probs[k]))
  }

  // ---------------------------------------------------------------------------
  // The stable sort by descending probability

  /** Stable insertion sort by descending probability. An entry moves left past
      its neighbour only while the neighbour's probability is strictly lower,
      so entries of equal probability keep their input order. The input must
      be an enumeration (each entry's index is its position); the result is
      then a permutation in `RankedOrder`. */
  method SortDescending(a: array<Entry>)
    requires forall k :: 0 <= k < a.Length ==> a[k].index == k
    modifies a
    ensures RankedOrder(a[..])
    ensures multiset(a[..]) == old(multiset(a[..]))
  {
    var i := 0;
    while i < a.Length
      invariant 0 <= i <= a.Length
      invariant RankedOrder(a[..i])
      invariant forall k :: 0 <= k < i ==> a[k].index < i
      invariant forall k :: i <= k < a.Length ==> a[k].index == k
      invariant multiset(a[..]) == old(multiset(a[..]))
    {
      InsertEntry(a, i);
      i := i + 1;
    }
    assert a[..a.Length] == a[..];
  }

  /** One step of the insertion sort: move a[i] left into the ordered prefix
      a[..i], past every entry of strictly lower probability. */
  method InsertEntry(a: array<Entry>, i: nat)
    requires i < a.Length
    requires RankedOrder(a[..i])
    requires forall k :: 0 <= k < i ==> a[k].index < i
    requires a[i].index == i
    modifies a
    ensures RankedOrder(a[..i + 1])
    ensures forall k :: 0 <= k <= i ==> a[k].index <= i
    ensures forall k :: i < k < a.Length ==> a[k] == old(a[k])
    ensures multiset(a[..]) == old(multiset(a[..]))
  {
    var j: nat := i;
    InsertionStart(a[..], i);
    while j > 0 && a[j - 1].probability < a[j].probability
      invariant j <= i
      invariant Inserting(a[..], old(a[..]), i, j)
    {
      ghost var before := a[..];
      Swap(a, j - 1, j);
      SwapStep(before, old(a[..]), i, j);
      j := j - 1;
    }
    InsertionDone(a[..], old(a[..]), i, j);
  }

  /** Exchange two entries of the array. */
  method Swap(a: array<Entry>, p: nat, q: nat)
    requires p < q < a.Length
    modifies a
    ensures a[..] == old(a[..])[p := old(a[q])][q := old(a[p])]
  {
    a[p], a[q] := a[q], a[p];
  }

  /** The state of the insertion loop: s is the array now and s0 the array
      before the step. The entry that was at i is at j, the prefix up to i is
      ordered around it, indices in the prefix other than j's are below i,
      nothing after i has moved, and s is a permutation of s0. */
  predicate Inserting(s: seq<Entry>, s0: seq<Entry>, i: nat, j: nat) {
    && |s| == |s0| && j <= i < |s|
    && s[j] == s0[i]
    && OrderedAround(s[..i + 1], j)
    && (forall k :: 0 <= k <= i && k != j ==> s[k].index < i)
    && (forall k :: i < k < |s| ==> s[k] == s0[k])
    && multiset(s) == multiset(s0)
  }

  lemma InsertionStart(s: seq<Entry>, i: nat)
    requires i < |s|
    requires RankedOrder(s[..i])
    requires forall k :: 0 <= k < i ==> s[k].index < i
    ensures Inserting(s, s, i, i)
  {
    assert s[..i + 1][..i] == s[..i];
    OrderedAroundLast(s[..i + 1]);
  }

  /** One iteration: swapping the entry with a left neighbour of lower
      probability keeps the loop state, one position further left. */
  lemma SwapStep(s: seq<Entry>, s0: seq<Entry>, i: nat, j: nat)
    requires Inserting(s, s0, i, j)
    requires 0 < j && s[j - 1].probability < s[j].probability
    ensures Inserting(s[j - 1 := s[j]][j := s[j - 1]], s0, i, j - 1)
  {
    var t := s[j - 1 := s[j]][j := s[j - 1]];
    assert t[..i + 1] == s[..i + 1][j - 1 := s[j]][j := s[j - 1]];
    SwapKeepsOrder(s[..i + 1], j);
    assert multiset(t) == multiset(s) by {
      assert t == s[j - 1 := s[j]][j := s[j - 1]];
    }
  }

  /** When the loop stops, the prefix up to i is in ranked order: the entry's
      left neighbour, if any, has no lower probability and a lower index. */
  lemma InsertionDone(s: seq<Entry>, s0: seq<Entry>, i: nat, j: nat)
    requires Inserting(s, s0, i, j)
    requires s0[i].index == i
    requires j > 0 ==> s[j - 1].probability >= s[j].probability
    ensures RankedOrder(s[..i + 1])
    ensures forall k :: 0 <= k <= i ==> s[k].index <= i
    ensures forall k :: i < k < |s| ==> s[k] == s0[k]
    ensures multiset(s) == multiset(s0)
  {
    InsertedInOrder(s[..i + 1], j);
  }

  /** The entry at j aside, s is in ranked order, and the entry at j ranks
      before everything to its right. */
  predicate OrderedAround(s: seq<Entry>, j: nat)
    requires j < |s|
  {
    && (forall p, q :: 0 <= p < q < |s| && p != j && q != j ==> Before(s[p], s[q]))
    && (forall q :: j < q < |s| ==> Before(s[j], s[q]))
  }

  /** A ranked prefix is ordered around its last position. */
  lemma OrderedAroundLast(s: seq<Entry>)
    requires |s| > 0 && RankedOrder(s[..|s| - 1])
    ensures OrderedAround(s, |s| - 1)
  {
    var n := |s| - 1;
    forall p, q | 0 <= p < q < |s| && p != n && q != n
      ensures Before(s[p], s[q])
    {
      assert s[p] == s[..n][p] && s[q] == s[..n][q];
    }
  }

  /** Swapping the entry at j with a left neighbour of lower probability keeps
      the order around the entry's new position j - 1. */
  lemma SwapKeepsOrder(s: seq<Entry>, j: nat)
    requires 0 < j < |s|
    requires OrderedAround(s, j)
    requires s[j - 1].probability < s[j].probability
    ensures OrderedAround(s[j - 1 := s[j]][j := s[j - 1]], j - 1)
  {
    var t := s[j - 1 := s[j]][j := s[j - 1]];
    forall p, q | 0 <= p < q < |t| && p != j - 1 && q != j - 1
      ensures Before(t[p], t[q])
    {
      if q == j {
        assert t[q] == s[j - 1] && t[p] == s[p];
      } else if p == j {
        assert t[p] == s[j - 1] && t[q] == s[q];
      } else {
        assert t[p] == s[p] && t[q] == s[q];
      }
    }
    forall q | j - 1 < q < |t|
      ensures Before(t[j - 1], t[q])
    {
      if q > j {
        assert t[q] == s[q];
      }
    }
  }

  /** Where the inner loop stops, the inserted entry fits the order: around
      position j everything is ordered, the left neighbour does not have a
      lower probability and has a lower index. */
  lemma InsertedInOrder(s: seq<Entry>, j: nat)
    requires j < |s|
    requires OrderedAround(s, j)
    requires j > 0 ==> s[j - 1].probability >= s[j].probability && s[j - 1].index < s[j].index
    ensures RankedOrder(s)
  {
    forall p, q | 0 <= p < q < |s|
      ensures Before(s[p], s[q])
    {
      if q == j && p < j - 1 {
        assert Before(s[p], s[j - 1]);
      }
    }
  }

  /** The ranked order is determined by the entries alone: two orderings of
      the same entries that both satisfy `RankedOrder` are the same sequence.
      So every stable descending sort of an enumeration, whatever algorithm
      it uses, gives what `SortDescending` gives. */
  lemma {:induction false} RankedOrderUnique(s: seq<Entry>, t: seq<Entry>)
    requires RankedOrder(s) && RankedOrder(t)
    requires multiset(s) == multiset(t)
    ensures s == t
    decreases |s|
  {
    if |s| == 0 {
      assert |t| == |multiset(t)| == 0;
    } else {
      RankedHead(s, t);
      assert s == [s[0]] + s[1..];
      assert t == [t[0]] + t[1..];
      assert multiset(s[1..]) == multiset(s) - multiset{s[0]} == multiset(t[1..]);
      RankedOrderTail(s);
      RankedOrderTail(t);
      RankedOrderUnique(s[1..], t[1..]);
    }
  }

  /** Two ranked orderings of the same entries start with the same entry: the
      one that ranks before every other. */
  lemma RankedHead(s: seq<Entry>, t: seq<Entry>)
    requires |s| > 0 && RankedOrder(s) && RankedOrder(t)
    requires multiset(s) == multiset(t)
    ensures |t| > 0 && t[0] == s[0]
  {
    assert s[0] in multiset(t);
    var k :| 0 <= k < |t| && t[k] == s[0];
    assert t[0] in multiset(s);
    var m :| 0 <= m < |s| && s[m] == t[0];
    assert k == 0 || m == 0;
  }

  lemma RankedOrderTail(s: seq<Entry>)
    requires |s| > 0 && RankedOrder(s)
    ensures RankedOrder(s[1..])
  {
    forall p, q | 0 <= p < q < |s| - 1
      ensures Before(s[1..][p], s[1..][q])
    {
      assert s[1..][p] == s[p + 1] && s[1..][q] == s[q + 1];
    }
  }

  // ---------------------------------------------------------------------------
  // The ranking

  /** Some ranked result stands for class i. */
  predicate Selected(results: seq<InferenceResult>, i: nat) {
    exists m :: 0 <= m < |results| && results[m].index == i
  }

  function AsEntry(r: InferenceResult): Entry {
    Entry(r.index, r.probability)
  }

  /** The output record of a ranked entry: `labels[index]` attached. */
  function Labelled(e: Entry, labels: seq<string>): InferenceResult
    requires e.index < |labels|
  {
    InferenceResult(e.index, e.probability, labels[e.index])
  }

  /** Pair each probability with its index, sort descending (stable), keep the
      first `TopK` and attach `labels[index]`. The result has min(5, |probs|)
      entries, each a distinct class with its own probability and label, in
      descending order with ties in ascending index order; every class left
      out comes after the last one kept. The original panics on a NaN
      probability (the comparison is unwrapped) and on an index outside the
      label table; reals have no NaN, and `|probs| <= |labels|` is required. */
  method Rank(probs: seq<real>, labels: seq<string>) returns (results: seq<InferenceResult>)
    requires |probs| <= |labels|
    ensures |results| == if |probs| < TopK then |probs| else TopK
    ensures forall m :: 0 <= m < |results| ==>
              && results[m].index < |probs|
              && results[m].probability == probs[results[m].index]
              && results[m].classLabel == labels[results[m].index]
    ensures forall p, q :: 0 <= p < q < |results| ==> results[p].index != results[q].index
    ensures forall p, q :: 0 <= p < q < |results| ==> Before(AsEntry(results[p]), AsEntry(results[q]))
    ensures forall i :: 0 <= i < |probs| && !Selected(results, i) ==>
              Before(AsEntry(results[|results| - 1]), Entry(i, probs[i]))
  {
    var entries := new Entry[|probs|](k requires 0 <= k < |probs| => Entry(k, probs[k]));
    assert entries[..] == Enumerate(probs);
    SortDescending(entries);
    ghost var sorted := entries[..];
    EnumerationEntries(probs, sorted);
    var n := if entries.Length < TopK then entries.Length else TopK;
    results := [];
    for m := 0 to n
      invariant |results| == m
      invariant forall k :: 0 <= k < m ==> results[k] == Labelled(sorted[k], labels)
    {
      results := results + [Labelled(entries[m], labels)];
    }
    assert |results| <= |sorted|;
    assert forall k :: 0 <= k < |results| ==> sorted[k].index < |labels| && results[k] == Labelled(sorted[k], labels);
    RankedPrefix(probs, labels, sorted, results);
  }

  /** Labelling a prefix of a ranked permutation of the enumeration gives
      distinct classes, each with its own probability and label, in ranked
      order, and every class outside the prefix ranks after its last entry. */
  lemma RankedPrefix(probs: seq<real>, labels: seq<string>, sorted: seq<Entry>, results: seq<InferenceResult>)
    requires |probs| <= |labels|
    requires RankedOrder(sorted)
    requires multiset(sorted) == multiset(Enumerate(probs))
    requires forall m :: 0 <= m < |sorted| ==> EntryOf(probs, sorted[m])
    requires |results| <= |sorted|
    requires forall k :: 0 <= k < |results| ==> sorted[k].index < |labels| && results[k] == Labelled(sorted[k], labels)
    ensures forall m :: 0 <= m < |results| ==>
              && results[m].index < |probs|
              && results[m].probability == probs[results[m].index]
              && results[m].classLabel == labels[results[m].index]
    ensures forall p, q :: 0 <= p < q < |results| ==> results[p].index != results[q].index
    ensures forall p, q :: 0 <= p < q < |results| ==> Before(AsEntry(results[p]), AsEntry(results[q]))
    ensures forall i :: 0 <= i < |probs| && !Selected(results, i) ==>
              |results| < |sorted| && (|results| > 0 ==> Before(AsEntry(results[|results| - 1]), Entry(i, probs[i])))
  {
    EnumerationCovered(probs, sorted);
    forall p, q | 0 <= p < q < |results|
      ensures results[p].index != results[q].index
    {
      assert Before(sorted[p], sorted[q]);
    }
    forall i | 0 <= i < |probs| && !Selected(results, i)
      ensures |results| < |sorted|
      ensures |results| > 0 ==> Before(AsEntry(results[|results| - 1]), Entry(i, probs[i]))
    {
      var p :| 0 <= p < |sorted| && sorted[p] == Entry(i, probs[i]);
      assert p >= |results|;
    }
  }

  /** A permutation of the enumeration holds only entries of the probability
      vector... */
  lemma EnumerationEntries(probs: seq<real>, s: seq<Entry>)
    requires multiset(s) == multiset(Enumerate(probs))
    ensures forall m :: 0 <= m < |s| ==> EntryOf(probs, s[m])
  {
    var e := Enumerate(probs);
    forall m | 0 <= m < |s|
      ensures EntryOf(probs, s[m])
    {
      assert s[m] in multiset(s);
      assert s[m] in e;
    }
  }

  /** ... and every one of them. */
  lemma EnumerationCovered(probs: seq<real>, s: seq<Entry>)
    requires multiset(s) == multiset(Enumerate(probs))
    ensures forall i :: 0 <= i < |probs| ==> Entry(i, probs[i]) in s
  {
    var e := Enumerate(probs);
    forall i | 0 <= i < |probs|
      ensures Entry(i, probs[i]) in s
    {
      assert e[i] == Entry(i, probs[i]);
      assert e[i] in multiset(e);
      assert e[i] in multiset(s);
    }
  }
}
