/**
 The keyword sentiment classifier. A text is lower-cased, split into maximal
 runs of word characters, and the runs found in a fixed positive and a fixed
 negative word set are counted; a three-way rule on the two counts gives the
 label and the confidence. Confidence is kept in integer hundredths
 (65 stands for 0.65).
 */
module Sentiment {

  datatype Label = Positive | Negative | Neutral

  /** The result of one classification: a label and a confidence in hundredths. */
  datatype Analysis = Analysis(sentiment: Label, confidence: nat)

  /** The label as the source spells it in its result. */
  function LabelName(l: Label): (name: string)
    ensures name in {"positive", "negative", "neutral"}
  {
    match l
    case Positive => "positive"
    case Negative => "negative"
    case Neutral => "neutral"
  }

  lemma LabelNameInjective(l: Label, m: Label)
    requires LabelName(l) == LabelName(m)
    ensures l == m
  {
  }

  // ---------------------------------------------------------------------------
  // The two word sets of the analyzer
  // ---------------------------------------------------------------------------

  const PositiveWords: set<string> := {
    "love", "like", "great", "good", "excellent", "amazing", "wonderful",
    "fantastic", "awesome", "brilliant", "perfect", "happy", "joy", "excited",
    "thrilled", "delighted", "pleased", "satisfied", "impressed", "outstanding"
  }

  const NegativeWords: set<string> := {
    "hate", "dislike", "bad", "terrible", "awful", "horrible", "disgusting",
    "disappointing", "frustrated", "angry", "sad", "upset", "annoyed", "worried",
    "concerned", "problem", "issue", "wrong", "failed", "broken"
  }

  // ---------------------------------------------------------------------------
  // Characters: lower-casing and word characters (ASCII)
  // ---------------------------------------------------------------------------

  predicate IsUpper(c: char) { 'A' <= c <= 'Z' }

  /**
   The ASCII lower-case map: upper-case letters move to their lower-case
   partners, every other character is kept. Whether a character is a word
   character does not change.
   */
  function ToLower(c: char): (d: char)
    ensures !IsUpper(d)
    ensures IsUpper(c) ==> 'a' <= d <= 'z' && d as int - c as int == 32
    ensures !IsUpper(c) ==> d == c
    ensures IsWordChar(d) <==> IsWordChar(c)
  {
    if IsUpper(c) then (c as int + 32) as char else c
  }

  /**
   A word character of `\w`: an ASCII letter, a digit or the underscore.
   Apostrophes and hyphens are not, so they split words.
   */
  function IsWordChar(c: char): (b: bool)
    ensures b ==> c as int < 128
    ensures c == '_' ==> b
    ensures c == '\'' || c == '-' || c == ' ' ==> !b
  {
    ('a' <= c <= 'z') || ('A' <= c <= 'Z') || ('0' <= c <= '9') || c == '_'
  }

  /** A possible token: a non-empty string of word characters. */
  predicate IsWord(w: string)
  {
    |w| > 0 && forall i :: 0 <= i < |w| ==> IsWordChar(w[i])
  }

  /** `text.lower()`. */
  function Lower(s: string): (r: string)
    ensures |r| == |s|
    ensures forall i :: 0 <= i < |s| ==> r[i] == ToLower(s[i])
  {
    seq(|s|, i requires 0 <= i < |s| => ToLower(s[i]))
  }

  lemma LowerAppend(a: string, b: string)
    ensures Lower(a + b) == Lower(a) + Lower(b)
  {
  }

  // ---------------------------------------------------------------------------
  // Tokenising: the matches of `\b\w+\b`
  // ---------------------------------------------------------------------------

  /** The length of the run of word characters at the start of `s`. */
  function RunLength(s: string): (n: nat)
    ensures n <= |s|
    ensures forall i :: 0 <= i < n ==> IsWordChar(s[i])
    ensures n < |s| ==> !IsWordChar(s[n])
  {
    if s == [] || !IsWordChar(s[0]) then 0 else 1 + RunLength(s[1..])
  }

  /** The maximal runs of word characters in `s`, left to right. */
  function Tokens(s: string): (ts: seq<string>)
    ensures forall k :: 0 <= k < |ts| ==> IsWord(ts[k])
    decreases |s|
  {
    if s == [] then []
    else if !IsWordChar(s[0]) then Tokens(s[1..])
    else
      var n := RunLength(s);
      [s[..n]] + Tokens(s[n..])
  }

  /** A run of word characters is a single token: it is never split into parts. */
  lemma TokensOfWord(w: string)
    requires IsWord(w)
    ensures Tokens(w) == [w]
  {
    RunLengthExact(w, |w|);
    assert w[..|w|] == w;
    assert w[|w|..] == [];
  }

  lemma TokensOfSeparators(s: string)
    requires forall i :: 0 <= i < |s| ==> !IsWordChar(s[i])
    ensures Tokens(s) == []
  {
  }

  /** The run at the start of `s` ends exactly where the first non-word character is. */
  lemma RunLengthExact(s: string, k: nat)
    requires k <= |s|
    requires forall i :: 0 <= i < k ==> IsWordChar(s[i])
    requires k < |s| ==> !IsWordChar(s[k])
    ensures RunLength(s) == k
  {
  }

  /**
   A character that is not a word character separates tokens: the tokens of
   `a + [c] + b` are the tokens of `a` followed by those of `b`.
   */
  lemma {:induction false} TokensSplit(a: string, c: char, b: string)
    requires !IsWordChar(c)
    ensures Tokens(a + [c] + b) == Tokens(a) + Tokens(b)
    decreases |a|
  {
    var s := a + [c] + b;
    if a == [] {
      assert s[1..] == b;
    } else if !IsWordChar(a[0]) {
      assert s[1..] == a[1..] + [c] + b;
      TokensSplit(a[1..], c, b);
    } else {
      var n := RunLength(a);
      RunLengthExact(s, n);
      if n == |a| {
        assert s[..n] == a;
        assert s[n..] == [c] + b;
        assert a[n..] == [];
        assert a[..n] == a;
        assert ([c] + b)[1..] == b;
      } else {
        assert s[..n] == a[..n];
        assert s[n..] == a[n..] + [c] + b;
        TokensSplit(a[n..], c, b);
      }
    }
  }

  // ---------------------------------------------------------------------------
  // Counting
  // ---------------------------------------------------------------------------

  /** The number of token occurrences that belong to `words`, repeats included. */
  function Count(ts: seq<string>, words: set<string>): (n: nat)
    ensures n <= |ts|
  {
    if ts == [] then 0 else (if ts[0] in words then 1 else 0) + Count(ts[1..], words)
  }

  lemma CountCons(w: string, ts: seq<string>, words: set<string>)
    ensures Count([w] + ts, words) == (if w in words then 1 else 0) + Count(ts, words)
  {
    assert ([w] + ts)[1..] == ts;
  }

  lemma {:induction false} CountAppend(a: seq<string>, b: seq<string>, words: set<string>)
    ensures Count(a + b, words) == Count(a, words) + Count(b, words)
  {
    if a == [] {
      assert a + b == b;
    } else {
      assert (a + b)[0] == a[0];
      assert (a + b)[1..] == a[1..] + b;
      CountAppend(a[1..], b, words);
    }
  }

  /** Every occurrence of a word counts separately: counting one word gives its multiplicity. */
  lemma {:induction false} CountOccurrences(ts: seq<string>, w: string)
    ensures Count(ts, {w}) == multiset(ts)[w]
  {
    if ts != [] {
      assert ts == [ts[0]] + ts[1..];
      assert multiset(ts) == multiset([ts[0]]) + multiset(ts[1..]);
      CountOccurrences(ts[1..], w);
    }
  }

  /** The count does not depend on the order of the tokens. */
  lemma {:induction false} CountPermutation(a: seq<string>, b: seq<string>, words: set<string>)
    requires multiset(a) == multiset(b)
    ensures Count(a, words) == Count(b, words)
    decreases |a|
  {
    if a != [] {
      var x := a[0];
      assert x in multiset(b);
      var i :| 0 <= i < |b| && b[i] == x;
      var rest := b[..i] + b[i + 1..];
      assert b == b[..i] + [x] + b[i + 1..];
      assert a == [x] + a[1..];
      assert multiset(a[1..]) == multiset(rest) by {
        assert multiset(a) == multiset([x]) + multiset(a[1..]);
        assert multiset(b) == multiset(b[..i]) + multiset([x]) + multiset(b[i + 1..]);
        assert multiset(rest) == multiset(b[..i]) + multiset(b[i + 1..]);
        assert multiset(a[1..]) == multiset(a) - multiset([x]);
        assert multiset(rest) == multiset(b) - multiset([x]);
      }
      CountPermutation(a[1..], rest, words);
      CountAppend(b[..i], b[i + 1..], words);
      CountAppend(b[..i] + [x], b[i + 1..], words);
      CountAppend(b[..i], [x], words);
    }
  }

  /** With disjoint sets, no token raises both counts. */
  lemma {:induction false} CountDisjoint(ts: seq<string>, p: set<string>, q: set<string>)
    requires p !! q
    ensures Count(ts, p) + Count(ts, q) <= |ts|
  {
    if ts != [] {
      CountDisjoint(ts[1..], p, q);
    }
  }

  /** Tokens that are all outside the set count zero. */
  lemma {:induction false} CountOutside(ts: seq<string>, words: set<string>)
    ensures (forall k :: 0 <= k < |ts| ==> ts[k] !in words) ==> Count(ts, words) == 0
  {
    if ts != [] {
      CountOutside(ts[1..], words);
    }
  }

  // ---------------------------------------------------------------------------
  // The decision rule
  // ---------------------------------------------------------------------------

  /** The confidence of a tie, whatever the counts. */
  const NeutralConfidence: nat := 65

  /** `min(0.6 + 0.1 * count, 0.95)` in hundredths. */
  function PolarConfidence(count: nat): (c: nat)
    ensures c <= 95
    ensures count >= 4 ==> c == 95
    ensures count < 4 ==> c == 60 + 10 * count
  {
    if 60 + 10 * count < 95 then 60 + 10 * count else 95
  }

  /** The three-way rule on the two counts. */
  function Decide(pos: nat, neg: nat): (a: Analysis)
    ensures a.sentiment == Positive <==> pos > neg
    ensures a.sentiment == Negative <==> neg > pos
    ensures a.sentiment == Neutral <==> pos == neg
    ensures a.sentiment == Positive ==> a.confidence == PolarConfidence(pos)
    ensures a.sentiment == Negative ==> a.confidence == PolarConfidence(neg)
    ensures a.sentiment == Neutral ==> a.confidence == NeutralConfidence
  {
    if pos > neg then Analysis(Positive, PolarConfidence(pos))
    else if neg > pos then Analysis(Negative, PolarConfidence(neg))
    else Analysis(Neutral, NeutralConfidence)
  }

  /** Confidence always lies in [0.65, 0.95]; a polar label has one of 0.7, 0.8, 0.9, 0.95. */
  lemma DecideConfidenceRange(pos: nat, neg: nat)
    ensures 65 <= Decide(pos, neg).confidence <= 95
    ensures Decide(pos, neg).sentiment != Neutral ==> Decide(pos, neg).confidence in {70, 80, 90, 95}
  {
    var a := Decide(pos, neg);
    if a.sentiment == Positive {
      assert pos >= 1;
    } else if a.sentiment == Negative {
      assert neg >= 1;
    }
  }

  function Mirror(l: Label): Label
  {
    match l
    case Positive => Negative
    case Negative => Positive
    case Neutral => Neutral
  }

  /** Swapping the two counts swaps positive and negative and keeps the confidence. */
  lemma DecideSymmetric(pos: nat, neg: nat)
    ensures Decide(neg, pos) == Analysis(Mirror(Decide(pos, neg).sentiment), Decide(pos, neg).confidence)
  {
  }

  /** One more positive word never turns a positive result away, nor lowers its confidence. */
  lemma DecideMonotone(pos: nat, neg: nat)
    requires Decide(pos, neg).sentiment == Positive
    ensures Decide(pos + 1, neg).sentiment == Positive
    ensures Decide(pos, neg).confidence <= Decide(pos + 1, neg).confidence
  {
  }

  // ---------------------------------------------------------------------------
  // The analyzer
  // ---------------------------------------------------------------------------

  /**
   The tokens the analyzer looks at: the word runs of the lower-cased text.
   Each is a word, and none contains an upper-case letter.
   */
  function TextTokens(text: string): (ts: seq<string>)
    ensures forall k :: 0 <= k < |ts| ==> IsWord(ts[k])
    ensures forall k :: 0 <= k < |ts| ==> forall i :: 0 <= i < |ts[k]| ==> !IsUpper(ts[k][i])
  {
    LowerTokens(Lower(text));
    Tokens(Lower(text))
  }

  /** Text without upper-case letters has tokens without upper-case letters. */
  lemma {:induction false} LowerTokens(s: string)
    requires forall i :: 0 <= i < |s| ==> !IsUpper(s[i])
    ensures forall k :: 0 <= k < |Tokens(s)| ==> forall i :: 0 <= i < |Tokens(s)[k]| ==> !IsUpper(Tokens(s)[k][i])
    decreases |s|
  {
    if s != [] {
      if !IsWordChar(s[0]) {
        LowerTokens(s[1..]);
      } else {
        var n := RunLength(s);
        LowerTokens(s[n..]);
      }
    }
  }

  /** How many tokens of the text are positive words; zero when none is. */
  function PositiveCount(text: string): (n: nat)
    ensures n <= |TextTokens(text)|
    ensures (forall k :: 0 <= k < |TextTokens(text)| ==> TextTokens(text)[k] !in PositiveWords) ==> n == 0
  {
    CountOutside(TextTokens(text), PositiveWords);
    Count(TextTokens(text), PositiveWords)
  }

  /** How many tokens of the text are negative words; zero when none is. */
  function NegativeCount(text: string): (n: nat)
    ensures n <= |TextTokens(text)|
    ensures (forall k :: 0 <= k < |TextTokens(text)| ==> TextTokens(text)[k] !in NegativeWords) ==> n == 0
  {
    CountOutside(TextTokens(text), NegativeWords);
    Count(TextTokens(text), NegativeWords)
  }

  /** `FastSentimentAnalyzer.analyze`: total, with the label and confidence of the three-way rule. */
  function Analyze(text: string): (a: Analysis)
    ensures a.sentiment == Positive <==> PositiveCount(text) > NegativeCount(text)
    ensures a.sentiment == Negative <==> NegativeCount(text) > PositiveCount(text)
    ensures a.sentiment == Neutral <==> PositiveCount(text) == NegativeCount(text)
    ensures a.sentiment == Positive ==> a.confidence == PolarConfidence(PositiveCount(text))
    ensures a.sentiment == Negative ==> a.confidence == PolarConfidence(NegativeCount(text))
    ensures a.sentiment == Neutral ==> a.confidence == NeutralConfidence
    ensures 65 <= a.confidence <= 95
  {
    DecideConfidenceRange(PositiveCount(text), NegativeCount(text));
    Decide(PositiveCount(text), NegativeCount(text))
  }

  // ---------------------------------------------------------------------------
  // Properties of the analyzer
  // ---------------------------------------------------------------------------

  /** A non-empty string of lower-case letters, as every word of the two sets is. */
  predicate IsLowerWord(w: string)
  {
    |w| > 0 && forall i :: 0 <= i < |w| ==> 'a' <= w[i] <= 'z'
  }

  /** The two sets are disjoint. */
  lemma WordSetsDisjoint()
    ensures PositiveWords !! NegativeWords
  {
  }

  /** Every word of the two sets is lower-case letters only. */
  lemma WordSetsLowerCase()
    ensures forall w :: w in PositiveWords + NegativeWords ==> IsLowerWord(w)
  {
    PositiveWordsLowerCase();
    NegativeWordsLowerCase();
  }

  lemma PositiveWordsLowerCase()
    ensures forall w :: w in PositiveWords ==> IsLowerWord(w)
  {
  }

  lemma NegativeWordsLowerCase()
    ensures forall w :: w in NegativeWords ==> IsLowerWord(w)
  {
  }

  /** A lower-case word is a token and is its own lower-cased form, so every set word can be matched. */
  lemma LowerWordIsToken(w: string)
    requires IsLowerWord(w)
    ensures IsWord(w) && Lower(w) == w
  {
  }

  /** No token raises both counts, so together they never exceed the number of tokens. */
  lemma CountsBounded(text: string)
    ensures PositiveCount(text) + NegativeCount(text) <= |TextTokens(text)|
  {
    WordSetsDisjoint();
    CountDisjoint(TextTokens(text), PositiveWords, NegativeWords);
  }

  /** Two texts that differ only in the case of letters. */
  predicate SameUpToCase(s: string, t: string)
  {
    |s| == |t| && forall i :: 0 <= i < |s| ==> ToLower(s[i]) == ToLower(t[i])
  }

  /** Matching ignores case. */
  lemma AnalyzeIgnoresCase(s: string, t: string)
    requires SameUpToCase(s, t)
    ensures Analyze(s) == Analyze(t)
  {
    assert Lower(s) == Lower(t);
  }

  /** A non-word character splits the text: each side is counted on its own. */
  lemma CountsSplitAtSeparator(a: string, c: char, b: string)
    requires !IsWordChar(c)
    ensures PositiveCount(a + [c] + b) == PositiveCount(a) + PositiveCount(b)
    ensures NegativeCount(a + [c] + b) == NegativeCount(a) + NegativeCount(b)
  {
    LowerAppend(a + [c], b);
    LowerAppend(a, [c]);
    assert Lower([c]) == [ToLower(c)];
    TokensSplit(Lower(a), ToLower(c), Lower(b));
    assert TextTokens(a + [c] + b) == TextTokens(a) + TextTokens(b);
    CountAppend(TextTokens(a), TextTokens(b), PositiveWords);
    CountAppend(TextTokens(a), TextTokens(b), NegativeWords);
  }

  /** A single word, in any case, is read as its lower-cased self. */
  lemma TextTokensOfWord(w: string)
    requires IsWord(w)
    ensures TextTokens(w) == [Lower(w)]
  {
    assert IsWord(Lower(w)) by {
      forall i | 0 <= i < |w| ensures IsWordChar(Lower(w)[i]) {
        assert Lower(w)[i] == ToLower(w[i]);
      }
    }
    TokensOfWord(Lower(w));
  }

  /** A word in neither set, inserted between spaces, changes nothing. */
  lemma NeutralWordIgnored(a: string, w: string, b: string)
    requires IsWord(w)
    requires Lower(w) !in PositiveWords && Lower(w) !in NegativeWords
    ensures Analyze(a + " " + w + " " + b) == Analyze(a + " " + b)
  {
    assert a + " " + w + " " + b == a + [' '] + (w + [' '] + b);
    assert a + " " + b == a + [' '] + b;
    CountsSplitAtSeparator(a, ' ', w + [' '] + b);
    CountsSplitAtSeparator(w, ' ', b);
    CountsSplitAtSeparator(a, ' ', b);
    TextTokensOfWord(w);
    assert PositiveCount(w) == 0 && NegativeCount(w) == 0;
  }

  /** A set word between spaces raises its own count by exactly one. */
  lemma SetWordCounted(a: string, w: string, b: string)
    requires IsWord(w)
    ensures PositiveCount(a + " " + w + " " + b)
            == PositiveCount(a) + PositiveCount(b) + (if Lower(w) in PositiveWords then 1 else 0)
    ensures NegativeCount(a + " " + w + " " + b)
            == NegativeCount(a) + NegativeCount(b) + (if Lower(w) in NegativeWords then 1 else 0)
  {
    assert a + " " + w + " " + b == a + [' '] + (w + [' '] + b);
    CountsSplitAtSeparator(a, ' ', w + [' '] + b);
    CountsSplitAtSeparator(w, ' ', b);
    TextTokensOfWord(w);
  }

  /** Words joined by single spaces: the shape of the example texts below. */
  function JoinWords(ws: seq<string>): string
  {
    if ws == [] then "" else if |ws| == 1 then ws[0] else ws[0] + " " + JoinWords(ws[1..])
  }

  /** Words separated by single spaces are read back as exactly those words. */
  lemma {:induction false} TokensOfJoin(ws: seq<string>)
    requires forall k :: 0 <= k < |ws| ==> IsWord(ws[k])
    ensures Tokens(JoinWords(ws)) == ws
  {
    if |ws| == 1 {
      TokensOfWord(ws[0]);
    } else if |ws| > 1 {
      assert JoinWords(ws) == ws[0] + [' '] + JoinWords(ws[1..]);
      TokensSplit(ws[0], ' ', JoinWords(ws[1..]));
      TokensOfWord(ws[0]);
      TokensOfJoin(ws[1..]);
    }
  }

  /** The analysis depends on the text only through its tokens. */
  lemma AnalyzeOfTokens(text: string, ts: seq<string>)
    requires TextTokens(text) == ts
    ensures Analyze(text) == Decide(Count(ts, PositiveWords), Count(ts, NegativeWords))
  {
  }
}
