/** The label tokeniser of the result comparator: remove every comma, remove
    every match of the regular expression `\bn\d+\b` (a WordNet synset id
    such as "n02124075" standing as a whole word), split on whitespace and
    collect the words into a set. No case folding takes place. */
module LabelTokens {

  /** The characters Rust's `char::is_whitespace` accepts (Unicode White_Space),
      which is what `split_whitespace` splits on. */
  predicate IsWhitespace(c: char) {
    || c == ' '
    || ('\t' <= c <= '\r')
    || c == '\U{85}'
    || c == '\U{A0}'
    || c == '\U{1680}'
    || ('\U{2000}' <= c <= '\U{200A}')
    || c == '\U{2028}'
    || c == '\U{2029}'
    || c == '\U{202F}'
    || c == '\U{205F}'
    || c == '\U{3000}'
  }

  /** `\d`, restricted to ASCII digits. */
  predicate IsDigit(c: char) {
    '0' <= c <= '9'
  }

  /** `\w`, restricted to ASCII letters, digits and the underscore. */
  predicate IsWordChar(c: char) {
    ('a' <= c <= 'z') || ('A' <= c <= 'Z') || IsDigit(c) || c == '_'
  }

  /** A token as `split_whitespace` yields it: non-empty, without whitespace. */
  predicate IsWord(w: string) {
    w != [] && forall c :: c in w ==> !IsWhitespace(c)
  }

  // ---------------------------------------------------------------------------
  // Step 1: delete every comma

  function RemoveCommas(s: string): string
  {
    if s == [] then []
    else (if s[0] == ',' then [] else [s[0]]) + RemoveCommas(s[1..])
  }

  /** Comma removal keeps exactly the characters other than ','. */
  lemma {:induction false} RemoveCommasChars(s: string)
    ensures forall c :: c in RemoveCommas(s) <==> c in s && c != ','
  {
    if s != [] {
      RemoveCommasChars(s[1..]);
      assert s == [s[0]] + s[1..];
    }
  }

  lemma {:induction false} RemoveCommasAppend(a: string, b: string)
    ensures RemoveCommas(a + b) == RemoveCommas(a) + RemoveCommas(b)
  {
    if a != [] {
      assert (a + b)[1..] == a[1..] + b;
      RemoveCommasAppend(a[1..], b);
    } else {
      assert a + b == b;
    }
  }

  lemma {:induction false} RemoveCommasNoComma(s: string)
    requires ',' !in s
    ensures RemoveCommas(s) == s
  {
    if s != [] {
      assert ',' !in s[1..] by { assert forall k :: 0 <= k < |s[1..]| ==> s[1..][k] == s[k + 1]; }
      RemoveCommasNoComma(s[1..]);
    }
  }

  // ---------------------------------------------------------------------------
  // Step 2: delete every whole-word synset id

  /** The end of the maximal run of digits that starts at position i. */
  function DigitRunEnd(s: string, i: nat): (j: nat)
    requires i <= |s|
    ensures i <= j <= |s|
    ensures forall k :: i <= k < j ==> IsDigit(s[k])
    ensures j == |s| || !IsDigit(s[j])
    decreases |s| - i
  {
    if i < |s| && IsDigit(s[i]) then DigitRunEnd(s, i + 1) else i
  }

  /** `\b` at position i of s: exactly one of the two neighbouring
      characters exists and is a word character. */
  predicate IsBoundary(s: string, i: nat)
    requires i <= |s|
  {
    (i > 0 && IsWordChar(s[i - 1])) != (i < |s| && IsWordChar(s[i]))
  }

  /** The regular expression read literally: `\bn\d+\b` matches s[i..k]. */
  predicate MatchesSynset(s: string, i: nat, k: nat)
    requires i <= k <= |s|
  {
    && IsBoundary(s, i)
    && i < |s| && s[i] == 'n'
    && i + 1 < k
    && (forall m :: i + 1 <= m < k ==> IsDigit(s[m]))
    && IsBoundary(s, k)
  }

  /** A synset id starts at position i; it ends at `DigitRunEnd(s, i + 1)`. */
  predicate SynsetAt(s: string, i: nat)
    requires i <= |s|
  {
    && i < |s| && s[i] == 'n' && IsBoundary(s, i)
    && i + 1 < |s| && IsDigit(s[i + 1])
    && IsBoundary(s, DigitRunEnd(s, i + 1))
  }

  /** The regular expression matches at i for exactly one end, the end of the
      digit run: a shorter match would stop between two digits, where there is
      no word boundary. So `SynsetAt` is the match the regex engine finds. */
  lemma SynsetAtIsTheMatch(s: string, i: nat, k: nat)
    requires i <= k <= |s|
    ensures MatchesSynset(s, i, k) <==> SynsetAt(s, i) && k == DigitRunEnd(s, i + 1)
  {
  }

  /** Left-to-right replacement of every non-overlapping match by the empty
      string, starting at position i. The word boundaries are read in the
      original string s, as the regex engine reads its haystack. */
  function StripSynsetsFrom(s: string, i: nat): string
    requires i <= |s|
    decreases |s| - i
  {
    if i == |s| then []
    else if SynsetAt(s, i) then StripSynsetsFrom(s, DigitRunEnd(s, i + 1))
    else [s[i]] + StripSynsetsFrom(s, i + 1)
  }

  function StripSynsets(s: string): string
  {
    StripSynsetsFrom(s, 0)
  }

  /** Stripping only deletes: every character left is one of s. */
  lemma {:induction false} StripSynsetsChars(s: string, i: nat)
    requires i <= |s|
    ensures forall c :: c in StripSynsetsFrom(s, i) ==> c in s
    decreases |s| - i
  {
    if i < |s| {
      if SynsetAt(s, i) {
        StripSynsetsChars(s, DigitRunEnd(s, i + 1));
      } else {
        StripSynsetsChars(s, i + 1);
      }
    }
  }

  /** Whether a synset id starts at a position inside A, and where it ends, is
      the same in A + B when B starts with a non-word character. */
  lemma SynsetAtAppend(a: string, b: string, i: nat)
    requires i < |a|
    requires b == [] || !IsWordChar(b[0])
    ensures SynsetAt(a + b, i) == SynsetAt(a, i)
    ensures SynsetAt(a, i) ==> DigitRunEnd(a + b, i + 1) == DigitRunEnd(a, i + 1)
  {
    var s := a + b;
    assert s[i] == a[i];
    assert IsBoundary(s, i) == IsBoundary(a, i);
    if i + 1 < |a| {
      DigitRunEndAppend(a, b, i + 1);
      var j := DigitRunEnd(a, i + 1);
      assert j < |a| ==> s[j] == a[j];
      assert IsBoundary(s, j) == IsBoundary(a, j);
    } else {
      assert b == [] || !IsDigit(s[i + 1]);
    }
  }

  /** Stripping A + B from a position inside A never looks past the end of A
      when B starts with a non-word character: the part inside A strips as A
      alone would. */
  lemma {:induction false} StripSynsetsAppend(a: string, b: string, i: nat)
    requires i <= |a|
    requires b == [] || !IsWordChar(b[0])
    ensures StripSynsetsFrom(a + b, i) == StripSynsetsFrom(a, i) + StripSynsetsFrom(a + b, |a|)
    decreases |a| - i
  {
    if i < |a| {
      SynsetAtAppend(a, b, i);
      assert (a + b)[i] == a[i];
      if SynsetAt(a, i) {
        StripSynsetsAppend(a, b, DigitRunEnd(a, i + 1));
      } else {
        StripSynsetsAppend(a, b, i + 1);
      }
    }
  }

  lemma {:induction false} DigitRunEndAppend(a: string, b: string, i: nat)
    requires i <= |a|
    requires b == [] || !IsWordChar(b[0])
    ensures DigitRunEnd(a + b, i) == DigitRunEnd(a, i)
    decreases |a| - i
  {
    if i < |a| {
      assert (a + b)[i] == a[i];
      if IsDigit(a[i]) {
        DigitRunEndAppend(a, b, i + 1);
      }
    } else if b != [] {
      assert (a + b)[i] == b[0];
    }
  }

  // ---------------------------------------------------------------------------
  // Step 3: split on whitespace and collect the words into a set

  /** The length of the run of non-whitespace characters at the start of s. */
  function WordLength(s: string): (n: nat)
    ensures n <= |s|
    ensures forall k :: 0 <= k < n ==> !IsWhitespace(s[k])
    ensures n == |s| || IsWhitespace(s[n])
  {
    if s == [] || IsWhitespace(s[0]) then 0 else 1 + WordLength(s[1..])
  }

  /** The maximal runs of non-whitespace characters of s, left to right. */
  function SplitWhitespace(s: string): seq<string>
    decreases |s|
  {
    if s == [] then []
    else if IsWhitespace(s[0]) then SplitWhitespace(s[1..])
    else
      var n := WordLength(s);
      assert n > 0;
      [s[..n]] + SplitWhitespace(s[n..])
  }

  /** Every piece is a non-empty run of non-whitespace characters of s. */
  lemma {:induction false} SplitWhitespaceWords(s: string)
    ensures forall w :: w in SplitWhitespace(s) ==> IsWord(w) && forall c :: c in w ==> c in s
    decreases |s|
  {
    if s != [] {
      if IsWhitespace(s[0]) {
        SplitWhitespaceWords(s[1..]);
        assert forall c :: c in s[1..] ==> c in s;
      } else {
        var n := WordLength(s);
        SplitWhitespaceWords(s[n..]);
        assert forall c :: c in s[n..] ==> c in s;
        assert forall c :: c in s[..n] ==> c in s;
        assert forall c :: c in s[..n] ==> !IsWhitespace(c) by {
          forall c | c in s[..n] ensures !IsWhitespace(c) {
            var k :| 0 <= k < n && s[..n][k] == c;
          }
        }
      }
    }
  }

  /** A trailing whitespace character adds no word. */
  lemma {:induction false} SplitWhitespaceTrailing(s: string, c: char)
    requires IsWhitespace(c)
    ensures SplitWhitespace(s + [c]) == SplitWhitespace(s)
    decreases |s|
  {
    var t := s + [c];
    if s == [] {
      assert SplitWhitespace(t) == SplitWhitespace(t[1..]);
      assert t[1..] == [];
    } else if IsWhitespace(s[0]) {
      assert t[1..] == s[1..] + [c];
      SplitWhitespaceTrailing(s[1..], c);
    } else {
      var n := WordLength(s);
      WordLengthAppend(s, c);
      assert t[..n] == s[..n];
      assert t[n..] == s[n..] + [c];
      SplitWhitespaceTrailing(s[n..], c);
    }
  }

  lemma {:induction false} WordLengthAppend(s: string, c: char)
    requires IsWhitespace(c)
    ensures WordLength(s + [c]) == WordLength(s)
    decreases |s|
  {
    var t := s + [c];
    if s == [] {
      assert t[0] == c;
    } else if !IsWhitespace(s[0]) {
      assert t[1..] == s[1..] + [c];
      WordLengthAppend(s[1..], c);
    }
  }

  // ---------------------------------------------------------------------------
  // The whole tokeniser

  function Elements(words: seq<string>): (ws: set<string>)
    ensures forall w :: w in ws <==> w in words
  {
    set k | 0 <= k < |words| :: words[k]
  }

  /** The token set of a label: commas removed, synset ids removed, split on
      whitespace, duplicates collapsed. Every token is a non-empty word with no
      whitespace and no comma. */
  function Tokenize(text: string): (tokens: set<string>)
    ensures forall t :: t in tokens ==> IsWord(t) && ',' !in t
  {
    var plain := RemoveCommas(text);
    RemoveCommasChars(text);
    StripSynsetsChars(plain, 0);
    SplitWhitespaceWords(StripSynsets(plain));
    Elements(SplitWhitespace(StripSynsets(plain)))
  }

  /** A label followed by ", n<digits>" has the token set of the bare label:
      the comma goes, and the synset id is a whole word after the space. */
  lemma SynsetSuffixIgnored(text: string, digits: string)
    requires digits != []
    requires forall k :: 0 <= k < |digits| ==> IsDigit(digits[k])
    ensures Tokenize(text + ", n" + digits) == Tokenize(text)
  {
    var tail := " n" + digits;
    assert ',' !in tail by {
      assert forall k :: 0 <= k < |tail| ==> tail[k] != ',';
    }
    calc {
      RemoveCommas(text + ", n" + digits);
      { assert text + ", n" + digits == text + ([','] + tail); }
      RemoveCommas(text + ([','] + tail));
      { RemoveCommasAppend(text, [','] + tail);
        RemoveCommasAppend([','], tail);
        RemoveCommasNoComma(tail); }
      RemoveCommas(text) + tail;
    }
    var a := RemoveCommas(text);
    var s := a + tail;
    StripSynsetsAppend(a, tail, 0);
    // At |a| stands the space, then the synset id runs to the end of s.
    assert s[|a|] == ' ' && s[|a| + 1] == 'n';
    assert !SynsetAt(s, |a|);
    assert DigitRunEnd(s, |a| + 2) == |s| by {
      DigitRunToEnd(s, |a| + 2);
    }
    assert SynsetAt(s, |a| + 1);
    assert StripSynsetsFrom(s, |a| + 1) == [];
    assert StripSynsetsFrom(s, |a|) == [' '];
    assert StripSynsets(s) == StripSynsets(a) + [' '];
    SplitWhitespaceTrailing(StripSynsets(a), ' ');
  }

  lemma {:induction false} DigitRunToEnd(s: string, i: nat)
    requires i <= |s|
    requires forall k :: i <= k < |s| ==> IsDigit(s[k])
    ensures DigitRunEnd(s, i) == |s|
    decreases |s| - i
  {
    if i < |s| {
      DigitRunToEnd(s, i + 1);
    }
  }

  /** A label that is nothing but a synset id has no tokens at all. */
  lemma SynsetOnlyLabel(digits: string)
    requires digits != []
    requires forall k :: 0 <= k < |digits| ==> IsDigit(digits[k])
    ensures Tokenize("n" + digits) == {}
  {
    var s := "n" + digits;
    assert ',' !in s by {
      assert forall k :: 0 <= k < |s| ==> s[k] != ',';
    }
    RemoveCommasNoComma(s);
    assert forall k :: 1 <= k < |s| ==> s[k] == digits[k - 1];
    DigitRunToEnd(s, 1);
    assert SynsetAt(s, 0);
    assert StripSynsetsFrom(s, |s|) == [];
    assert StripSynsets(s) == StripSynsetsFrom(s, |s|);
  }

  /** Without digits no synset id can match, so stripping keeps the text. */
  lemma {:induction false} StripWithoutDigits(s: string, i: nat)
    requires i <= |s|
    requires forall k :: 0 <= k < |s| ==> !IsDigit(s[k])
    ensures StripSynsetsFrom(s, i) == s[i..]
    decreases |s| - i
  {
    if i < |s| {
      StripWithoutDigits(s, i + 1);
      assert s[i..] == [s[i]] + s[i + 1..];
    }
  }

  /** Where no synset id starts, stripping keeps the text. */
  lemma {:induction false} StripWithoutMatch(s: string, i: nat)
    requires i <= |s|
    requires forall k :: 0 <= k < |s| ==> !SynsetAt(s, k)
    ensures StripSynsetsFrom(s, i) == s[i..]
    decreases |s| - i
  {
    if i < |s| {
      StripWithoutMatch(s, i + 1);
      assert s[i..] == [s[i]] + s[i + 1..];
    }
  }

  lemma {:induction false} WordLengthOfWord(w: string, rest: string)
    requires IsWord(w) || w == []
    requires rest == [] || IsWhitespace(rest[0])
    ensures WordLength(w + rest) == |w|
    decreases |w|
  {
    var s := w + rest;
    if w == [] {
      assert s == rest;
    } else {
      assert s[0] == w[0] && w[0] in w;
      assert s[1..] == w[1..] + rest;
      assert forall c :: c in w[1..] ==> c in w;
      WordLengthOfWord(w[1..], rest);
    }
  }

  /** A word followed by whitespace (or nothing) is split off as one token. */
  lemma SplitWordThen(w: string, rest: string)
    requires IsWord(w)
    requires rest == [] || IsWhitespace(rest[0])
    ensures SplitWhitespace(w + rest) == [w] + SplitWhitespace(rest)
  {
    var s := w + rest;
    WordLengthOfWord(w, rest);
    assert s[0] == w[0] && w[0] in w;
    assert s[..|w|] == w;
    assert s[|w|..] == rest;
  }

  /** A string without commas and digits, as a sequence of words. */
  predicate PlainText(s: string) {
    forall k :: 0 <= k < |s| ==> s[k] != ',' && !IsDigit(s[k])
  }

  /** Plain text goes through the first two steps unchanged. */
  lemma PlainTextUnchanged(s: string)
    requires PlainText(s)
    ensures StripSynsets(RemoveCommas(s)) == s
  {
    RemoveCommasNoComma(s);
    StripWithoutDigits(s, 0);
  }

  /** A single plain word is its own only token. */
  lemma OneWordTokens(w: string)
    requires IsWord(w) && PlainText(w)
    ensures Tokenize(w) == {w}
  {
    PlainTextUnchanged(w);
    SplitWordThen(w, []);
    assert w + [] == w;
    assert SplitWhitespace(w) == [w];
  }

  /** Two plain words separated by one space tokenise to those two words. */
  lemma TwoWordTokens(w1: string, w2: string)
    requires IsWord(w1) && PlainText(w1)
    requires IsWord(w2) && PlainText(w2)
    ensures Tokenize(w1 + " " + w2) == {w1, w2}
  {
    var rest := " " + w2;
    var s := w1 + rest;
    assert s == w1 + " " + w2;
    assert PlainText(s) by {
      forall k | 0 <= k < |s|
        ensures s[k] != ',' && !IsDigit(s[k])
      {
        if k < |w1| { assert s[k] == w1[k]; }
        else if k > |w1| { assert s[k] == w2[k - |w1| - 1]; }
      }
    }
    PlainTextUnchanged(s);
    SplitWordThen(w1, rest);
    assert SplitWhitespace(rest) == SplitWhitespace(w2) by {
      assert rest[1..] == w2;
    }
    SplitWordThen(w2, []);
    assert w2 + [] == w2;
    assert SplitWhitespace(s) == [w1, w2];
  }

  // ---------------------------------------------------------------------------
  // Concrete labels

  /** The synset suffix and its comma do not change the tokens. */
  lemma EgyptianCatSynset()
    ensures Tokenize("Egyptian cat, n02124075") == Tokenize("Egyptian cat")
  {
    var d := "02124075";
    assert forall k :: 0 <= k < |d| ==> IsDigit(d[k]);
    assert "Egyptian cat, n02124075" == "Egyptian cat" + ", n" + d;
    SynsetSuffixIgnored("Egyptian cat", d);
  }

  lemma EgyptianCatWords()
    ensures Tokenize("Egyptian cat") == {"Egyptian", "cat"}
  {
    assert IsWord("Egyptian") && PlainText("Egyptian");
    assert IsWord("cat") && PlainText("cat");
    assert "Egyptian" + " " + "cat" == "Egyptian cat";
    TwoWordTokens("Egyptian", "cat");
  }

  /** Removing the one comma between two comma-free strings joins them. */
  lemma RemoveGlueComma(a: string, b: string)
    requires ',' !in a && ',' !in b
    ensures RemoveCommas(a + [','] + b) == a + b
  {
    var t := [','] + b;
    assert a + [','] + b == a + t;
    assert t[0] == ',' && t[1..] == b;
    assert RemoveCommas(t) == RemoveCommas(b);
    RemoveCommasAppend(a, t);
    RemoveCommasNoComma(a);
    RemoveCommasNoComma(b);
  }

  /** After a word character, an `n` starts no synset id. */
  lemma GluedHasNoSynset(w: string, digits: string)
    requires w != [] && PlainText(w) && IsWordChar(w[|w| - 1])
    requires forall k :: 0 <= k < |digits| ==> IsDigit(digits[k])
    ensures forall k :: 0 <= k < |w + "n" + digits| ==> !SynsetAt(w + "n" + digits, k)
  {
    var s := w + "n" + digits;
    forall k | 0 <= k < |s|
      ensures !SynsetAt(s, k)
    {
      if k < |w| - 1 {
        assert s[k + 1] == w[k + 1];
      } else if k == |w| - 1 {
        assert s[k + 1] == 'n';
      } else if k == |w| {
        assert s[k - 1] == w[|w| - 1];
      } else {
        assert s[k] == digits[k - |w| - 1];
      }
    }
  }

  /** Commas go first, so a synset id glued to a word by a comma becomes part
      of that word: there is no word boundary in front of its `n`. */
  lemma GluedSynsetKept(w: string, digits: string)
    requires IsWord(w) && PlainText(w) && IsWordChar(w[|w| - 1])
    requires digits != []
    requires forall k :: 0 <= k < |digits| ==> IsDigit(digits[k])
    ensures Tokenize(w + "," + "n" + digits) == {w + "n" + digits}
  {
    var tail := "n" + digits;
    var s := w + tail;
    assert ',' !in tail by {
      assert forall k :: 0 <= k < |tail| ==> tail[k] != ',';
    }
    RemoveGlueComma(w, tail);
    assert w + "," + "n" + digits == w + [','] + tail;
    assert w + "n" + digits == s;
    GluedHasNoSynset(w, digits);
    StripWithoutMatch(s, 0);
    assert StripSynsets(RemoveCommas(w + "," + "n" + digits)) == s;
    assert IsWord(s) by {
      forall c | c in s
        ensures !IsWhitespace(c)
      {
        assert c in w || c in tail;
      }
    }
    SplitWordThen(s, []);
    assert s + [] == s;
    assert SplitWhitespace(s) == [s];
  }

  lemma GluedCatSynset()
    ensures Tokenize("cat,n02124075") == {"catn02124075"}
  {
    var d := "02124075";
    assert "cat" + "," + "n" + d == "cat,n02124075";
    assert "cat" + "n" + d == "catn02124075";
    assert forall k :: 0 <= k < |d| ==> IsDigit(d[k]);
    assert IsWord("cat") && PlainText("cat") && IsWordChar("cat"[2]);
    GluedSynsetKept("cat", d);
  }

  /** No case folding: "Cat" and "cat" are different tokens. */
  lemma TokensAreCaseSensitive()
    ensures Tokenize("Cat") == {"Cat"} && Tokenize("cat") == {"cat"}
  {
    assert IsWord("Cat") && PlainText("Cat");
    assert IsWord("cat") && PlainText("cat");
    OneWordTokens("Cat");
    OneWordTokens("cat");
  }
}
