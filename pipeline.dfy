/**
 How the two components meet: the label the classifier detects is passed, as
 its lower-case name, as the sentiment of the generator; a manual override is
 the lower-cased menu entry.
 */
module Pipeline {
  import opened Sentiment
  import opened Generator
  import SentimentExamples

  /** The template each label is meant to select. */
  function ToneFor(l: Label): Tone
  {
    match l
    case Positive => Uplifting
    case Negative => Constructive
    case Neutral => Informative
  }

  /**
   Every label the classifier can report selects its own template and has its
   own starter: the default starter is never used for a detected sentiment.
   */
  lemma LabelSelectsTemplateAndStarter(l: Label)
    ensures LabelName(l) in Starters
    ensures ToneOf(LabelName(l)) == ToneFor(l)
    ensures Starter(LabelName(l)) != DefaultStarter
  {
  }

  /** For any text, the detected sentiment is one the generator knows by name. */
  lemma DetectedSentimentIsKnown(text: string)
    ensures var name := LabelName(Analyze(text).sentiment);
            name in Starters && ToneOf(name) == ToneFor(Analyze(text).sentiment)
  {
    LabelSelectsTemplateAndStarter(Analyze(text).sentiment);
  }

  /** The override menu entries, lower-cased, select the matching template. */
  lemma OverrideSelectsTemplate()
    ensures ToneOf(Lower("Positive")) == Uplifting
    ensures ToneOf(Lower("Negative")) == Constructive
    ensures ToneOf(Lower("Neutral")) == Informative && Lower("Neutral") in Starters
  {
    assert Lower("Positive") == "positive";
    assert Lower("Negative") == "negative";
    assert Lower("Neutral") == "neutral";
  }

  /** The prompt of the end-to-end example below. */
  const LoveAmazing: string := "I love this amazing product"

  /**
   End to end with the remote call failing: the prompt's detected sentiment,
   passed on by name as the application does, is positive, and the caller
   receives the positive fallback sentence quoting the prompt.
   */
  lemma LoveAmazingFallback(g: Gemini, remote: Remote)
    requires remote(g.apiKey, Instruction(LoveAmazing, LabelName(Analyze(LoveAmazing).sentiment), 150), 0) == Failed
    ensures LabelName(Analyze(LoveAmazing).sentiment) == "positive"
    ensures Generate(g, remote, LoveAmazing, LabelName(Analyze(LoveAmazing).sentiment), 150)
            == FellBack("This presents exciting opportunities" + Regarding + LoveAmazing + Closing)
  {
    SentimentExamples.LoveAmazingExample();
    assert LabelName(Analyze(LoveAmazing).sentiment) == "positive";
    assert Generate(g, remote, LoveAmazing, "positive", 150)
           == FellBack(QuickFallback(LoveAmazing, "positive"));
    LoveAmazingFallbackText();
  }

  lemma LoveAmazingFallbackText()
    ensures QuickFallback(LoveAmazing, "positive")
            == "This presents exciting opportunities" + " regarding " + LoveAmazing + Closing
  {
    assert Starter("positive") == "This presents exciting opportunities";
  }
}
