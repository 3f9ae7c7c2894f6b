/** The result comparator: a similarity score between a generated and a
    reference (configured) ranked result list. Every pair of the Cartesian
    product contributes; the score is the plain sum of the contributions. */
module Comparator {
  import opened Inference
  import opened LabelTokens

  // ---------------------------------------------------------------------------
  // Jaccard similarity of two token sets

  /** |A * B| + |A + B| == |A| + |B|, and the intersection is no larger than
      the union, with equality exactly when the two sets are equal. */
  lemma IntersectionWithinUnion<T>(a: set<T>, b: set<T>)
    ensures |a * b| <= |a + b|
    ensures |a * b| == |a + b| ==> a == b
  {
    var u, i := a + b, a * b;
    assert u == i + (u - i);
    assert i * (u - i) == {};
    assert |u| == |i| + |u - i|;
    if |i| == |u| {
      assert u - i == {};
      assert forall x :: x in a ==> x in i;
      assert forall x :: x in b ==> x in i;
    }
  }

  /** |A * B| / |A + B|, and 0 when both sets are empty (where the original
      computes 0/0, a NaN, which the caller's `> 0.0` test then rejects). */
  function Jaccard(a: set<string>, b: set<string>): (j: real)
    ensures 0.0 <= j <= 1.0
    ensures j > 0.0 <==> a * b != {}
    ensures j == 1.0 <==> a == b && a != {}
  {
    if a + b == {} then 0.0
    else
      IntersectionWithinUnion(a, b);
      RatioBounds(|a * b|, |a + b|);
      assert a * b != {} <==> |a * b| > 0;
      assert a == b ==> a * b == a + b;
      (|a * b| as real) / (|a + b| as real)
  }

  /** i / u for 0 <= i <= u and u > 0 lies in [0, 1], is positive exactly when
      i is, and is 1 exactly when i == u. */
  lemma RatioBounds(i: nat, u: nat)
    requires 0 < u && i <= u
    ensures 0.0 <= (i as real) / (u as real) <= 1.0
    ensures (i as real) / (u as real) > 0.0 <==> i > 0
    ensures (i as real) / (u as real) == 1.0 <==> i == u
  {
    var q := (i as real) / (u as real);
    assert q * (u as real) == i as real;
    if q == 1.0 {
      assert i as real == u as real;
    }
  }

  /** Scaling by a factor in [0, 1] keeps a value at most 1 at most 1, keeps a
      non-negative value non-negative and a positive value positive. */
  lemma ScaledBounds(j: real, p: real)
    requires 0.0 <= j <= 1.0
    ensures p <= 1.0 ==> j * p <= 1.0
    ensures 0.0 <= p ==> 0.0 <= j * p
    ensures 0.0 < j && 0.0 < p ==> 0.0 < j * p
  {
    if 0.0 <= p {
      assert j * p <= 1.0 * p;
    } else {
      assert j * p <= 0.0;
    }
  }

  // ---------------------------------------------------------------------------
  // The contribution of one pair

  function JaccardCredit(j: real, genProbability: real, confProbability: real): (r: real)
    requires 0.0 <= j <= 1.0
    ensures 0.0 <= genProbability ==> 0.0 <= r
    ensures genProbability <= 1.0 ==> r <= 1.0
    ensures 0.0 < genProbability ==> (r > 0.0 <==> j > 0.0)
    ensures j == 0.0 ==> r == 0.0
  {
    ScaledBounds(j, genProbability);
    if j > 0.0 then
      if confProbability < genProbability then j else j * genProbability
    else 0.0
  }

  /** What the pair (gen, conf) adds to the similarity score. Equal labels: 1
      when the reference is no more confident than the generated result, else
      the generated probability. Different labels: the Jaccard similarity J of
      their token sets, or J times the generated probability when the
      reference is at least as confident; nothing when J is 0. */
  function PairScore(gen: InferenceResult, conf: InferenceResult): (r: real)
    ensures 0.0 <= gen.probability ==> 0.0 <= r
    ensures gen.probability <= 1.0 ==> r <= 1.0
    ensures gen == conf ==> r == 1.0
    ensures 0.0 < gen.probability ==>
              (r > 0.0 <==> gen.classLabel == conf.classLabel
                            || Tokenize(gen.classLabel) * Tokenize(conf.classLabel) != {})
    ensures (gen.classLabel != conf.classLabel
             && Tokenize(gen.classLabel) * Tokenize(conf.classLabel) == {}) ==> r == 0.0
  {
    if gen.classLabel == conf.classLabel then
      if conf.probability <= gen.probability then 1.0 else gen.probability
    else
      JaccardCredit(Jaccard(Tokenize(gen.classLabel), Tokenize(conf.classLabel)), gen.probability, conf.probability)
  }

  // ---------------------------------------------------------------------------
  // The score: a sum over the Cartesian product

  /** The sum of PairScore(gen, c) over the entries c of config. */
  function RowScore(gen: InferenceResult, config: seq<InferenceResult>): (r: real)
    ensures 0.0 <= gen.probability ==> 0.0 <= r
    ensures gen.probability <= 1.0 ==> r <= |config| as real
  {
    if config == [] then 0.0
    else RowScore(gen, config[..|config| - 1]) + PairScore(gen, config[|config| - 1])
  }

  /** The sum of PairScore(g, c) over every g of generated and c of config. */
  function Score(generated: seq<InferenceResult>, config: seq<InferenceResult>): real
  {
    if generated == [] then 0.0
    else Score(generated[..|generated| - 1], config) + RowScore(generated[|generated| - 1], config)
  }

  predicate ProbabilitiesAtLeastZero(results: seq<InferenceResult>) {
    forall k :: 0 <= k < |results| ==> 0.0 <= results[k].probability
  }

  predicate ProbabilitiesInUnit(results: seq<InferenceResult>) {
    forall k :: 0 <= k < |results| ==> 0.0 <= results[k].probability <= 1.0
  }

  /** The reference list's row of entries contributes nothing when it is empty. */
  lemma {:induction false} ScoreOfEmptyConfig(generated: seq<InferenceResult>)
    ensures Score(generated, []) == 0.0
    decreases |generated|
  {
    if generated != [] {
      ScoreOfEmptyConfig(generated[..|generated| - 1]);
    }
  }

  /** Either list empty: the score is 0. */
  lemma ScoreOfEmptyList(generated: seq<InferenceResult>, config: seq<InferenceResult>)
    requires generated == [] || config == []
    ensures Score(generated, config) == 0.0
  {
    if config == [] {
      ScoreOfEmptyConfig(generated);
    }
  }

  /** With generated probabilities in [0, 1] each pair adds a value in [0, 1],
      so the unnormalised total lies in [0, |generated| * |config|]. */
  lemma {:induction false} ScoreBounds(generated: seq<InferenceResult>, config: seq<InferenceResult>)
    requires ProbabilitiesInUnit(generated)
    ensures 0.0 <= Score(generated, config) <= (|generated| * |config|) as real
    decreases |generated|
  {
    if generated != [] {
      var n := |generated|;
      var front := generated[..n - 1];
      assert ProbabilitiesInUnit(front) by {
        assert forall k :: 0 <= k < n - 1 ==> front[k] == generated[k];
      }
      ScoreBounds(front, config);
      assert 0.0 <= generated[n - 1].probability <= 1.0;
      ProductStep(n, |config|);
    }
  }

  lemma ProductStep(n: nat, c: nat)
    requires 0 < n
    ensures (n * c) as real == ((n - 1) * c) as real + c as real
  {
    assert n * c == (n - 1) * c + c;
  }

  /** The score is a sum, not an average: concatenating generated lists adds
      their scores. */
  lemma {:induction false} ScoreAppend(g1: seq<InferenceResult>, g2: seq<InferenceResult>, config: seq<InferenceResult>)
    ensures Score(g1 + g2, config) == Score(g1, config) + Score(g2, config)
    decreases |g2|
  {
    if g2 == [] {
      assert g1 + g2 == g1;
    } else {
      var n := |g2|;
      assert (g1 + g2)[..|g1 + g2| - 1] == g1 + g2[..n - 1];
      assert (g1 + g2)[|g1 + g2| - 1] == g2[n - 1];
      ScoreAppend(g1, g2[..n - 1], config);
    }
  }

  /** A row is at least any single one of its terms when no term is negative. */
  lemma {:induction false} RowScoreAtLeastPair(gen: InferenceResult, config: seq<InferenceResult>, k: nat)
    requires 0.0 <= gen.probability
    requires k < |config|
    ensures RowScore(gen, config) >= PairScore(gen, config[k])
    decreases |config|
  {
    var n := |config|;
    if k == n - 1 {
      RowScoreAtLeastLast(gen, config);
    } else {
      var front := config[..n - 1];
      assert front[k] == config[k];
      RowScoreAtLeastPair(gen, front, k);
      RowScoreAtLeastFront(gen, config);
    }
  }

  lemma RowScoreAtLeastLast(gen: InferenceResult, config: seq<InferenceResult>)
    requires 0.0 <= gen.probability
    requires config != []
    ensures RowScore(gen, config) >= PairScore(gen, config[|config| - 1])
  {
    assert 0.0 <= RowScore(gen, config[..|config| - 1]);
  }

  lemma RowScoreAtLeastFront(gen: InferenceResult, config: seq<InferenceResult>)
    requires 0.0 <= gen.probability
    requires config != []
    ensures RowScore(gen, config) >= RowScore(gen, config[..|config| - 1])
  {
    assert 0.0 <= PairScore(gen, config[|config| - 1]);
  }

  /** The reference list holds the label of gen with a probability no higher
      than gen's: the pair earns full credit. */
  predicate FullCredit(config: seq<InferenceResult>, gen: InferenceResult) {
    exists k :: 0 <= k < |config| && config[k].classLabel == gen.classLabel
                                  && config[k].probability <= gen.probability
  }

  /** Every generated entry whose label the reference list holds with no
      higher probability earns full credit in its row, so the score is at
      least the length of the generated list. */
  lemma {:induction false} CoveredScore(generated: seq<InferenceResult>, config: seq<InferenceResult>)
    requires ProbabilitiesAtLeastZero(generated)
    requires forall i :: 0 <= i < |generated| ==> FullCredit(config, generated[i])
    ensures Score(generated, config) >= |generated| as real
    decreases |generated|
  {
    if generated != [] {
      var n := |generated|;
      var front := generated[..n - 1];
      assert forall i :: 0 <= i < n - 1 ==> front[i] == generated[i];
      CoveredScore(front, config);
      var gen := generated[n - 1];
      var k :| 0 <= k < |config| && config[k].classLabel == gen.classLabel
                                 && config[k].probability <= gen.probability;
      RowScoreAtLeastPair(gen, config, k);
    }
  }

  /** Extending the reference prefix by one entry adds that entry's pair score. */
  lemma RowScoreStep(gen: InferenceResult, config: seq<InferenceResult>, j: nat)
    requires j < |config|
    ensures RowScore(gen, config[..j + 1]) == RowScore(gen, config[..j]) + PairScore(gen, config[j])
  {
    assert config[..j + 1][..j] == config[..j];
  }

  /** Self-similarity: a list compared with itself scores at least its length,
      each diagonal pair adding exactly 1. */
  lemma SelfSimilarity(results: seq<InferenceResult>)
    requires ProbabilitiesAtLeastZero(results)
    ensures Score(results, results) >= |results| as real
  {
    forall i | 0 <= i < |results|
      ensures FullCredit(results, results[i])
    {
      assert results[i].classLabel == results[i].classLabel;
    }
    CoveredScore(results, results);
  }

  // ---------------------------------------------------------------------------
  // The comparator itself

  /** The body of the inner loop of `compare_results`: what one pair adds to
      the running total. */
  method PairSimilarity(gen: InferenceResult, conf: InferenceResult) returns (contribution: real)
    ensures contribution == PairScore(gen, conf)
  {
    contribution := 0.0;
    if gen.classLabel == conf.classLabel {
      if conf.probability <= gen.probability {
        contribution := 1.0;
      } else {
        contribution := gen.probability;
      }
    } else {
      var genWords := Tokenize(gen.classLabel);
      var confWords := Tokenize(conf.classLabel);
      contribution := JaccardContribution(genWords, confWords, gen.probability, conf.probability);
    }
  }

  /** The different-label branch once both token sets are built: the Jaccard
      similarity, credited in full or scaled by the generated probability. */
  method JaccardContribution(genWords: set<string>, confWords: set<string>, genProbability: real, confProbability: real)
    returns (contribution: real)
    ensures contribution == JaccardCredit(Jaccard(genWords, confWords), genProbability, confProbability)
  {
    contribution := 0.0;
    var intersection := |genWords * confWords| as real;
    var union := |genWords + confWords| as real;
    // The original divides 0 by 0 here when both sets are empty; the
    // resulting NaN fails the test below exactly as 0 does.
    var jaccardSimilarity := if union == 0.0 then 0.0 else intersection / union;
    assert union == 0.0 <==> genWords + confWords == {};
    assert jaccardSimilarity == Jaccard(genWords, confWords);
    if jaccardSimilarity > 0.0 {
      if confProbability < genProbability {
        contribution := jaccardSimilarity;
      } else {
        contribution := jaccardSimilarity * genProbability;
      }
    }
  }

  /** `compare_results`: the two nested loops add the contribution of every
      pair of the Cartesian product to `totalSimilarity`, which is returned as
      it is, not divided by the number of pairs. */
  method CompareResults(generated: seq<InferenceResult>, config: seq<InferenceResult>)
    returns (totalSimilarity: real)
    ensures totalSimilarity == Score(generated, config)
  {
    totalSimilarity := 0.0;
    for i := 0 to |generated|
      invariant totalSimilarity == Score(generated[..i], config)
    {
      var gen := generated[i];
      for j := 0 to |config|
        invariant totalSimilarity == Score(generated[..i], config) + RowScore(gen, config[..j])
      {
        var conf := config[j];
        var contribution := PairSimilarity(gen, conf);
        totalSimilarity := totalSimilarity + contribution;
        RowScoreStep(gen, config, j);
      }
      assert config[..|config|] == config;
      assert generated[..i + 1][..i] == generated[..i];
    }
    assert generated[..|generated|] == generated;
  }

  // ---------------------------------------------------------------------------
  // Single pairs and concrete comparisons

  /** Comparing two one-entry lists scores exactly their one pair. */
  lemma ScoreOfSingletons(gen: InferenceResult, conf: InferenceResult)
    ensures Score([gen], [conf]) == PairScore(gen, conf)
  {
    assert [gen][..0] == [];
    assert [conf][..0] == [];
    assert RowScore(gen, [conf]) == RowScore(gen, []) + PairScore(gen, conf);
    assert Score([gen], [conf]) == Score([], [conf]) + RowScore(gen, [conf]);
  }

  /** Same label, reference less confident: full credit. */
  lemma TabbyCatFullCredit()
    ensures Score([InferenceResult(281, 0.9, "tabby cat")], [InferenceResult(281, 0.5, "tabby cat")]) == 1.0
  {
    ScoreOfSingletons(InferenceResult(281, 0.9, "tabby cat"), InferenceResult(281, 0.5, "tabby cat"));
  }

  /** Same label, reference more confident: the generated probability. */
  lemma TabbyCatPartialCredit()
    ensures Score([InferenceResult(281, 0.3, "tabby cat")], [InferenceResult(281, 0.9, "tabby cat")]) == 0.3
  {
    ScoreOfSingletons(InferenceResult(281, 0.3, "tabby cat"), InferenceResult(281, 0.9, "tabby cat"));
  }

  /** Different labels "x z" and "y z" share one of their three tokens; with
      the reference less confident the pair adds the Jaccard similarity 1/3
      itself (as "Persian cat" against "Siamese cat" does). */
  lemma OneSharedWordOfThree(gen: InferenceResult, conf: InferenceResult, x: string, y: string, z: string)
    requires IsWord(x) && PlainText(x) && IsWord(y) && PlainText(y) && IsWord(z) && PlainText(z)
    requires x != y && x != z && y != z
    requires gen.classLabel == x + " " + z && conf.classLabel == y + " " + z
    requires conf.probability < gen.probability
    ensures Score([gen], [conf]) == 1.0 / 3.0
  {
    TwoWordTokens(x, z);
    TwoWordTokens(y, z);
    var a, b := Tokenize(gen.classLabel), Tokenize(conf.classLabel);
    assert a == {x, z} && b == {y, z};
    assert gen.classLabel != conf.classLabel by {
      assert x in a && x !in b;
    }
    assert a * b == {z};
    assert a + b == {x, y, z};
    assert |a + b| == 3;
    assert Jaccard(a, b) == 1.0 / 3.0;
    assert PairScore(gen, conf) == 1.0 / 3.0;
    ScoreOfSingletons(gen, conf);
  }

  /** Two labels that are nothing but synset ids have no tokens; the original
      divides 0 by 0 and the NaN adds nothing, as 0 does here. */
  lemma SynsetOnlyLabelsAddNothing(gen: InferenceResult, conf: InferenceResult, d1: string, d2: string)
    requires d1 != [] && forall k :: 0 <= k < |d1| ==> IsDigit(d1[k])
    requires d2 != [] && forall k :: 0 <= k < |d2| ==> IsDigit(d2[k])
    requires gen.classLabel == "n" + d1 && conf.classLabel == "n" + d2 && d1 != d2
    ensures PairScore(gen, conf) == 0.0
  {
    SynsetOnlyLabel(d1);
    SynsetOnlyLabel(d2);
    assert gen.classLabel[1..] == d1 && conf.classLabel[1..] == d2;
  }
}
