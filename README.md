# squeezenet-blip-burn: the result ranker and the result comparator

The library classifies an image with SqueezeNet. It then ranks the model's
class probabilities into a list of at most five `InferenceResult` records:
class index, probability and label. A second function, `compare_results`,
scores how similar two such lists are.

This project models and proves the parts of the library that are not
numerical inference:

- `inference.dfy`, module `Inference`: the `InferenceResult` record. The
  Rust field `label` is named `classLabel` here because `label` is a Dafny
  keyword. `usize` becomes `nat`. `f32` becomes `real`.
- `labels.dfy`, module `LabelTokens`: how the comparator turns a label into
  a token set. It deletes every comma, then deletes every match of the regex
  `\bn\d+\b` (a WordNet synset id such as `n02124075`), then splits on
  whitespace and collects the words into a set.
  - The regex is read at character level. A match starts at a word boundary
    with `n`, continues with a non-empty run of digits, and must end at a
    word boundary. Any shorter end would fall between two digits, where
    there is no word boundary, so the only possible end is the end of the
    digit run (`SynsetAtIsTheMatch`).
  - Matches are leftmost and do not overlap. Boundaries are judged in the
    string before deletion, as `replace_all` does.
  - Whitespace is the full Unicode `White_Space` set, which is what Rust's
    `split_whitespace` uses.
- `compare.dfy`, module `Comparator`:
  - `CompareResults` is the nested loop of `compare_results`. It is proved
    equal to `Score`, the sum of `PairScore` over the Cartesian product of
    the two lists.
  - `PairSimilarity` is the loop body. It is proved equal to `PairScore`.
  - The lemmas prove the score's bounds, that it is additive (a sum, not an
    average), self-similarity and concrete comparisons.
- `rank.dfy`, module `Ranker`: the tail of `parse_image`.
  - It enumerates the probabilities and sorts the (index, probability) pairs
    by descending probability with a stable sort (`SortDescending`, an
    in-place insertion sort on an array, whose swaps go through `Swap`).
  - It keeps the first five and attaches each one's label.
  - `Rank` states what the ranking is. `RankedOrderUnique` shows that every
    stable descending sort gives the same order, so the ranking does not
    depend on the sort algorithm.

The definitions follow the code where one might expect otherwise:

- Labels are not lowercased. Tokens are compared case-sensitively, as the
  code does (`TokensAreCaseSensitive`).
- Two labels with no tokens (an empty union) are not reported as an error.
  The code computes 0/0, and the resulting NaN fails the `> 0.0` test. The
  pair therefore adds nothing, and the model gives it Jaccard similarity 0,
  which adds nothing either.
- The total is returned as a sum even though the comment at that point says
  "average".

## Model

| member | source | states |
|---|---|---|
| Comparator.CompareResults | src/lib.rs:66-103 | the nested loops return the sum of the pair contributions over every (generated, config) pair: exactly `Score(generated, config)` |
| Comparator.PairSimilarity | src/lib.rs:72-97 | one inner-loop iteration adds exactly `PairScore(gen, conf)` |
| Comparator.JaccardContribution | src/lib.rs:86-96 | the different-label branch, once both token sets are built, adds the Jaccard credit of the two sets, with 0 for an empty union where the original gets NaN |
| Comparator.JaccardCredit | src/lib.rs:90-96 | the credit for a Jaccard similarity J in [0, 1] is at least 0 for a non-negative generated probability and at most 1 for one at most 1; with a positive generated probability it is positive exactly when J is; it is 0 when J is 0 |
| Comparator.PairScore | src/lib.rs:72-97 | a pair adds at least 0 (for a non-negative generated probability) and at most 1 (for one at most 1); identical records add 1; with a positive generated probability, a pair adds something exactly when the labels are equal or share a token; different labels with disjoint token sets add 0 |
| Comparator.Jaccard | src/lib.rs:86-90 | the Jaccard similarity lies in [0, 1]; it is positive exactly when the token sets intersect; it is 1 exactly when the sets are equal and non-empty |
| Comparator.RowScore | src/lib.rs:71-98 | one generated entry's row lies in [0, \|config\|] when its probability is in [0, 1] |
| Comparator.ScoreOfEmptyList | src/lib.rs:67-102 | when either list is empty the score is 0 |
| Comparator.ScoreBounds | src/lib.rs:70-102 | with generated probabilities in [0, 1] the unnormalised score lies in [0, \|generated\| * \|config\|] |
| Comparator.ScoreAppend | src/lib.rs:70-102 | the score is a plain sum: splitting the generated list splits the score additively |
| Comparator.RowScoreAtLeastPair | src/lib.rs:71-98 | a row is at least each of its pair contributions |
| Comparator.CoveredScore | src/lib.rs:72-74 | if every generated label occurs in config with probability no higher than its own, the score is at least \|generated\| |
| Comparator.SelfSimilarity | src/lib.rs:72-74 | a list compared with itself scores at least its length |
| Comparator.ScoreOfSingletons | src/lib.rs:70-98 | two one-entry lists score exactly their one pair's contribution |
| Comparator.TabbyCatFullCredit | src/lib.rs:72-74 | same label and config probability 0.5 <= 0.9: the score is 1 |
| Comparator.TabbyCatPartialCredit | src/lib.rs:75-77 | same label and config probability 0.9 > 0.3: the score is the generated probability 0.3 |
| Comparator.OneSharedWordOfThree | src/lib.rs:79-92 | labels "x z" and "y z" (as "Persian cat" against "Siamese cat") with a less confident config entry score the Jaccard similarity 1/3 |
| Comparator.SynsetOnlyLabelsAddNothing | src/lib.rs:79-90 | two different labels that are only synset ids have no tokens and add 0 |
| LabelTokens.RemoveCommasChars | src/lib.rs:79 | comma removal keeps exactly the characters of the input other than ',' |
| LabelTokens.RemoveCommasAppend | src/lib.rs:79 | comma removal distributes over concatenation |
| LabelTokens.DigitRunEnd | src/lib.rs:68 | the end of the maximal digit run from i in bounds: all digits up to it and a non-digit (or the end) at it |
| LabelTokens.SynsetAtIsTheMatch | src/lib.rs:68 | `\bn\d+\b` matches s[i..k] exactly when position i starts a synset id and k is the end of its digit run |
| LabelTokens.StripSynsetsChars | src/lib.rs:80 | deleting synset matches keeps only characters of the input |
| LabelTokens.StripSynsetsAppend | src/lib.rs:80 | deleting synset matches distributes over a split point followed by a non-word character |
| LabelTokens.SplitWhitespaceWords | src/lib.rs:81 | every word is non-empty, free of whitespace and built from characters of the input |
| LabelTokens.SplitWhitespaceTrailing | src/lib.rs:81 | trailing whitespace adds no word |
| LabelTokens.SplitWordThen | src/lib.rs:81 | a word followed by whitespace (or nothing) is split off first |
| LabelTokens.Tokenize | src/lib.rs:79-81 | every token is a non-empty whitespace-free word without commas |
| LabelTokens.TwoWordTokens | src/lib.rs:79-81 | two plain words joined by a space tokenise to exactly those two words |
| LabelTokens.OneWordTokens | src/lib.rs:79-81 | a plain word tokenises to itself |
| LabelTokens.SynsetSuffixIgnored | src/lib.rs:79-85 | appending ", n" and digits to a label leaves its token set unchanged |
| LabelTokens.SynsetOnlyLabel | src/lib.rs:79-81 | a label that is only "n" and digits has no tokens |
| LabelTokens.GluedSynsetKept | src/lib.rs:79-80 | a synset id glued to a word by a comma is not a whole-word match: "w,nD" tokenises to the single word "wnD" |
| LabelTokens.EgyptianCatSynset | src/lib.rs:79-85 | "Egyptian cat, n02124075" has the same tokens as "Egyptian cat" |
| LabelTokens.EgyptianCatWords | src/lib.rs:79-81 | "Egyptian cat" tokenises to {"Egyptian", "cat"} |
| LabelTokens.GluedCatSynset | src/lib.rs:79-80 | "cat,n02124075" tokenises to {"catn02124075"} |
| LabelTokens.TokensAreCaseSensitive | src/lib.rs:81-85 | tokens keep their case: "Cat" and "cat" give different token sets |
| Ranker.SortDescending | src/lib.rs:52 | the array ends up a permutation of the enumeration in descending probability order, with ties in ascending index order (stable) |
| Ranker.InsertEntry | src/lib.rs:52 | one insertion step extends the ordered prefix by one entry, leaves the rest alone and permutes the array |
| Ranker.SwapStep | src/lib.rs:52 | swapping the inserted entry with a left neighbour of lower probability keeps the insertion loop's state (order around the entry, indices, untouched tail, permutation) |
| Ranker.InsertionDone | src/lib.rs:52 | when the entry's left neighbour has no lower probability, the prefix is in ranked order; a tie leaves the earlier entry first |
| Ranker.RankedOrderUnique | src/lib.rs:52 | two orderings of the same entries that are both in ranked order are equal, so every stable descending sort gives the same sequence |
| Ranker.EnumerationEntries | src/lib.rs:51-52 | a permutation of the enumeration holds only (index, probabilities[index]) pairs |
| Ranker.EnumerationCovered | src/lib.rs:51-52 | a permutation of the enumeration holds every (index, probabilities[index]) pair |
| Ranker.Rank | src/lib.rs:51-62 | returns min(5, n) records; each has a distinct index < n with that index's probability and label; they are in descending probability order with ties by ascending index; every class left out ranks after the last one kept |
| Ranker.RankedPrefix | src/lib.rs:53-62 | labelling a prefix of the ranked enumeration gives distinct classes in ranked order, with everything outside the prefix ranking after it |

## Left out

- Image decoding, resizing to 224x224 and the pixel fill loop (src/lib.rs:19-42): image I/O and floating-point pixel arithmetic.
- The normalizer, the SqueezeNet forward pass and softmax (src/lib.rs:44-49): the model code. The ranker takes the probability vector as a parameter.
- The `LABELS` table: it comes from another crate, so the ranker takes it as a parameter. `Ranker.Rank` requires that it has an entry for every class, as the fixed table does. The original looks up labels only for the at most five entries left after truncation, so it panics only when one of those kept indices has no label. A short table whose missing classes never reach the top five is outside the model.
- `Ranker.Rank`: a NaN probability, which makes the original panic in `partial_cmp(...).unwrap()`, cannot occur because probabilities are reals.
- `Comparator.CompareResults`: NaN and infinite probabilities cannot be represented, because probabilities are reals. The original accepts them, for instance from a deserialised reference list. With equal labels and a NaN `conf.probability` it adds `gen.probability`, because the `<=` test is false. A NaN `gen.probability` makes the total NaN as soon as one of its pairs has an equal label or a shared token, because the `<=` and `<` tests fail and `gen.probability` or `J * gen.probability` is added. A pair with a different label and no shared token still adds nothing.
- 32-bit float rounding: probabilities, Jaccard quotients and the running total are exact reals. The order of additions therefore does not matter in the model, while it can change the last bits in the original.
- `Comparator.Jaccard`: returns 0 for an empty union, where the original produces NaN. The two agree on every pair score because NaN fails the `> 0.0` test.
- `LabelTokens.SynsetAtIsTheMatch`: `\b`, `\w` and `\d` are read with ASCII letters, digits and `_`. The regex crate uses their Unicode meanings. Its `\w` also takes non-ASCII letters and digits, combining marks (`\p{M}`), connector punctuation (`\p{Pc}`, such as `‿`) and the Join_Control characters, and its `\d` takes every decimal digit (`\p{Nd}`). Labels holding such non-ASCII word characters can strip differently. For example, in "‿n123" the crate keeps the id, because no word boundary precedes its `n`, but `StripSynsets` deletes it.
- `Ranker.SortDescending`: an insertion sort stands in for the standard library's merge sort. `Ranker.RankedOrderUnique` shows that any stable sort gives the same order.
- `Comparator.PairSimilarity`: it is the body of the inner loop of `compare_results`, extracted into a method of its own. Its different-label branch is split further into `Comparator.JaccardContribution`.
- serde serialisation and `Clone` on `InferenceResult`: they are derived code with no logic of the model's concern.
- The unit test (src/lib.rs:104-117): it reads image files and prints.
