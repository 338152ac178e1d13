/**
 Worked inputs for the keyword classifier: concrete texts, the tokens read
 from each, and the analysis each one receives. Each step is its own small
 lemma so that no single proof has to evaluate a whole text at once.
 */
module SentimentExamples {
  import opened Sentiment

  lemma JoinThree(a: string, b: string, c: string)
    ensures JoinWords([a, b, c]) == a + " " + b + " " + c
  {
    assert [a, b, c][1..] == [b, c] && [b, c][1..] == [c];
    assert JoinWords([c]) == c;
    assert JoinWords([b, c]) == b + " " + c;
  }

  lemma JoinFive(a: string, b: string, c: string, d: string, e: string)
    ensures JoinWords([a, b, c, d, e]) == a + " " + b + " " + c + " " + d + " " + e
  {
    assert [a, b, c, d, e][1..] == [b, c, d, e];
    assert [b, c, d, e][1..] == [c, d, e];
    assert [c, d, e][1..] == [d, e] && [d, e][1..] == [e];
    assert JoinWords([e]) == e;
    assert JoinWords([d, e]) == d + " " + e;
    assert JoinWords([c, d, e]) == c + " " + d + " " + e;
    assert JoinWords([b, c, d, e]) == b + " " + c + " " + d + " " + e;
  }

  lemma CountThree(a: string, b: string, c: string, words: set<string>)
    ensures Count([a, b, c], words)
            == (if a in words then 1 else 0) + (if b in words then 1 else 0) + (if c in words then 1 else 0)
  {
    CountCons(c, [], words);
    CountCons(b, [c], words);
    CountCons(a, [b, c], words);
    assert [a, b, c] == [a] + [b, c] && [b, c] == [b] + [c] && [c] == [c] + [];
  }

  lemma CountFive(a: string, b: string, c: string, d: string, e: string, words: set<string>)
    ensures Count([a, b, c, d, e], words)
            == (if a in words then 1 else 0) + (if b in words then 1 else 0) + (if c in words then 1 else 0)
             + (if d in words then 1 else 0) + (if e in words then 1 else 0)
  {
    CountCons(e, [], words);
    CountCons(d, [e], words);
    CountCons(c, [d, e], words);
    CountCons(b, [c, d, e], words);
    CountCons(a, [b, c, d, e], words);
    assert [a, b, c, d, e] == [a] + [b, c, d, e] && [b, c, d, e] == [b] + [c, d, e];
    assert [c, d, e] == [c] + [d, e] && [d, e] == [d] + [e] && [e] == [e] + [];
  }

  /** A text whose lower-cased form is some words joined by spaces is read as those words. */
  lemma TokensOfLowered(text: string, lowered: string, ws: seq<string>)
    requires Lower(text) == lowered && lowered == JoinWords(ws)
    requires forall k :: 0 <= k < |ws| ==> IsWord(ws[k])
    ensures TextTokens(text) == ws
  {
    TokensOfJoin(ws);
  }

  // "I dislike it"

  lemma DislikeLower()
    ensures Lower("I dislike it") == "i dislike it"
  {
  }

  lemma DislikeSpaced()
    ensures "i dislike it" == "i" + " " + "dislike" + " " + "it"
  {
  }

  lemma DislikeTokens()
    ensures TextTokens("I dislike it") == ["i", "dislike", "it"]
  {
    DislikeLower();
    JoinThree("i", "dislike", "it");
    DislikeSpaced();
    TokensOfLowered("I dislike it", "i dislike it", ["i", "dislike", "it"]);
  }

  lemma DislikeCounts()
    ensures Count(["i", "dislike", "it"], PositiveWords) == 0
    ensures Count(["i", "dislike", "it"], NegativeWords) == 1
  {
    CountThree("i", "dislike", "it", PositiveWords);
    CountThree("i", "dislike", "it", NegativeWords);
    assert "i" !in PositiveWords && "dislike" !in PositiveWords && "it" !in PositiveWords;
    assert "i" !in NegativeWords && "dislike" in NegativeWords && "it" !in NegativeWords;
  }

  /** "dislike" is one token: it counts as negative and never as "like". */
  lemma DislikeIsNotLike()
    ensures TextTokens("I dislike it") == ["i", "dislike", "it"]
    ensures Analyze("I dislike it") == Analysis(Negative, 70)
  {
    DislikeTokens();
    DislikeCounts();
    AnalyzeOfTokens("I dislike it", ["i", "dislike", "it"]);
  }

  // "I love this amazing product"

  lemma LoveAmazingLower()
    ensures Lower("I love this amazing product") == "i love this amazing product"
  {
  }

  lemma LoveAmazingSpaced()
    ensures "i love this amazing product" == "i" + " " + "love" + " " + "this" + " " + "amazing" + " " + "product"
  {
  }

  lemma LoveAmazingTokens()
    ensures TextTokens("I love this amazing product") == ["i", "love", "this", "amazing", "product"]
  {
    LoveAmazingLower();
    JoinFive("i", "love", "this", "amazing", "product");
    LoveAmazingSpaced();
    TokensOfLowered("I love this amazing product", "i love this amazing product", ["i", "love", "this", "amazing", "product"]);
  }

  lemma LoveAmazingCounts()
    ensures Count(["i", "love", "this", "amazing", "product"], PositiveWords) == 2
    ensures Count(["i", "love", "this", "amazing", "product"], NegativeWords) == 0
  {
    CountFive("i", "love", "this", "amazing", "product", PositiveWords);
    CountFive("i", "love", "this", "amazing", "product", NegativeWords);
    assert "i" !in PositiveWords && "love" in PositiveWords && "this" !in PositiveWords;
    assert "amazing" in PositiveWords && "product" !in PositiveWords;
    assert "i" !in NegativeWords && "love" !in NegativeWords && "this" !in NegativeWords;
    assert "amazing" !in NegativeWords && "product" !in NegativeWords;
  }

  /** Two positive words and no negative one: positive at 0.8. */
  lemma LoveAmazingExample()
    ensures Analyze("I love this amazing product") == Analysis(Positive, 80)
  {
    LoveAmazingTokens();
    LoveAmazingCounts();
    AnalyzeOfTokens("I love this amazing product", ["i", "love", "this", "amazing", "product"]);
  }

  // "The meeting is at 3pm"

  lemma MeetingLower()
    ensures Lower("The meeting is at 3pm") == "the meeting is at 3pm"
  {
  }

  lemma MeetingSpaced()
    ensures "the meeting is at 3pm" == "the" + " " + "meeting" + " " + "is" + " " + "at" + " " + "3pm"
  {
  }

  lemma MeetingTokens()
    ensures TextTokens("The meeting is at 3pm") == ["the", "meeting", "is", "at", "3pm"]
  {
    MeetingLower();
    JoinFive("the", "meeting", "is", "at", "3pm");
    MeetingSpaced();
    TokensOfLowered("The meeting is at 3pm", "the meeting is at 3pm", ["the", "meeting", "is", "at", "3pm"]);
  }

  lemma MeetingWordsOutside()
    ensures "the" !in PositiveWords && "meeting" !in PositiveWords && "is" !in PositiveWords
    ensures "at" !in PositiveWords && "3pm" !in PositiveWords
    ensures "the" !in NegativeWords && "meeting" !in NegativeWords && "is" !in NegativeWords
    ensures "at" !in NegativeWords && "3pm" !in NegativeWords
  {
  }

  lemma MeetingCounts()
    ensures Count(["the", "meeting", "is", "at", "3pm"], PositiveWords) == 0
    ensures Count(["the", "meeting", "is", "at", "3pm"], NegativeWords) == 0
  {
    MeetingWordsOutside();
    CountOutside(["the", "meeting", "is", "at", "3pm"], PositiveWords);
    CountOutside(["the", "meeting", "is", "at", "3pm"], NegativeWords);
  }

  /** No word of either set: a tie at zero, neutral at exactly 0.65. */
  lemma MeetingExample()
    ensures Analyze("The meeting is at 3pm") == Analysis(Neutral, 65)
  {
    MeetingTokens();
    MeetingCounts();
    AnalyzeOfTokens("The meeting is at 3pm", ["the", "meeting", "is", "at", "3pm"]);
  }

  // "Great great GREAT great great"

  lemma GreatLower()
    ensures Lower("Great great GREAT great great") == "great great great great great"
  {
  }

  lemma GreatSpaced()
    ensures "great great great great great" == "great" + " " + "great" + " " + "great" + " " + "great" + " " + "great"
  {
  }

  lemma GreatTokens()
    ensures TextTokens("Great great GREAT great great") == ["great", "great", "great", "great", "great"]
  {
    GreatLower();
    JoinFive("great", "great", "great", "great", "great");
    GreatSpaced();
    TokensOfLowered("Great great GREAT great great", "great great great great great", ["great", "great", "great", "great", "great"]);
  }

  lemma GreatCounts()
    ensures Count(["great", "great", "great", "great", "great"], PositiveWords) == 5
    ensures Count(["great", "great", "great", "great", "great"], NegativeWords) == 0
  {
    CountFive("great", "great", "great", "great", "great", PositiveWords);
    CountFive("great", "great", "great", "great", "great", NegativeWords);
    assert "great" in PositiveWords && "great" !in NegativeWords;
  }

  /** Five positive words in mixed case: the confidence is capped at 0.95 instead of reaching 1.1. */
  lemma ConfidenceCapExample()
    ensures Analyze("Great great GREAT great great") == Analysis(Positive, 95)
  {
    GreatTokens();
    GreatCounts();
    AnalyzeOfTokens("Great great GREAT great great", ["great", "great", "great", "great", "great"]);
  }
}
