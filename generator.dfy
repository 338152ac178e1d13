/**
 The deterministic parts of the Gemini text generator: how the credential is
 chosen at construction, which instruction is sent for a sentiment, the canned
 fallback sentence, and the rule that any failure of the remote call yields
 that fallback. The remote call itself is a parameter: a function from the
 configured credential, the instruction and the request's position within
 the call to a reply that either carries text or reports a failure.
 */
module Generator {
  import opened Wrappers
  import opened Strings

  // ---------------------------------------------------------------------------
  // Construction: choosing the credential
  // ---------------------------------------------------------------------------

  /** The error construction raises when neither credential source has a key. */
  datatype ConfigError = MissingApiKey(message: string)

  const MissingApiKeyMessage: string := "Google Gemini API key required!"

  /** A constructed generator, reduced to the credential its client was configured with. */
  datatype Gemini = Gemini(apiKey: string)

  /** A credential source counts only when it holds a non-empty string. */
  predicate Present(key: Option<string>)
  {
    key.Some? && key.value != ""
  }

  /**
   Constructing the generator: the explicit key if it is present, otherwise
   the value of `GOOGLE_API_KEY` (passed in as `envKey`) if that is present,
   otherwise the configuration error.
   */
  function Configure(apiKey: Option<string>, envKey: Option<string>): (r: Result<Gemini, ConfigError>)
    ensures r.Success? <==> Present(apiKey) || Present(envKey)
    ensures r.Success? ==> r.value.apiKey != ""
    ensures r.Success? && Present(apiKey) ==> r.value.apiKey == apiKey.value
    ensures r.Success? && !Present(apiKey) ==> r.value.apiKey == envKey.value
    ensures r.Failure? ==> r.error == MissingApiKey(MissingApiKeyMessage)
  {
    if Present(apiKey) then Success(Gemini(apiKey.value))
    else if Present(envKey) then Success(Gemini(envKey.value))
    else Failure(MissingApiKey(MissingApiKeyMessage))
  }

  /** A present explicit key makes the environment irrelevant. */
  lemma ExplicitKeyWins(apiKey: Option<string>, env1: Option<string>, env2: Option<string>)
    requires Present(apiKey)
    ensures Configure(apiKey, env1) == Configure(apiKey, env2) == Success(Gemini(apiKey.value))
  {
  }

  /** An empty string is treated exactly like an absent value, in either source. */
  lemma EmptyKeyIsAbsent(apiKey: Option<string>, envKey: Option<string>)
    ensures Configure(Some(""), envKey) == Configure(None, envKey)
    ensures Configure(apiKey, Some("")) == Configure(apiKey, None)
  {
  }

  // ---------------------------------------------------------------------------
  // The instruction sent to the remote model
  // ---------------------------------------------------------------------------

  /** The three instruction templates. */
  datatype Tone = Uplifting | Constructive | Informative

  /** Template choice: exact, case-sensitive comparison; anything else is informative. */
  function ToneOf(sentiment: string): (t: Tone)
    ensures t == Uplifting <==> sentiment == "positive"
    ensures t == Constructive <==> sentiment == "negative"
    ensures t == Informative <==> sentiment != "positive" && sentiment != "negative"
  {
    if sentiment == "positive" then Uplifting
    else if sentiment == "negative" then Constructive
    else Informative
  }

  /** The part of the template before the word count. */
  function Opening(t: Tone): (o: string)
    ensures |o| > 8 && o[..8] == "Write a "
  {
    match t
    case Uplifting => "Write a positive, uplifting "
    case Constructive => "Write a balanced, constructive "
    case Informative => "Write a neutral, informative "
  }

  /** The part of the template between the word count and the prompt. */
  function Request(t: Tone): (q: string)
    ensures |q| > 7 && "-word" <= q
    ensures q[|q| - 2..] == ": "
  {
    match t
    case Uplifting => "-word response about: "
    case Constructive => "-word response addressing concerns about: "
    case Informative => "-word response about: "
  }

  /**
   The formatted instruction for a prompt, a sentiment and a target word count.
   It opens with "Write a ", states the word count in decimal followed by
   "-word" right after the template's opening, and ends with ": " and the
   prompt verbatim.
   */
  function Instruction(prompt: string, sentiment: string, wordCount: int): (r: string)
    ensures |r| > 8 && r[..8] == "Write a "
    ensures |r| >= |prompt| + 2 && r[|r| - |prompt| - 2..] == ": " + prompt
    ensures var o := |Opening(ToneOf(sentiment))|;
            var d := IntToDecimal(wordCount);
            o + |d| + 5 <= |r| && r[o..o + |d| + 5] == d + "-word"
  {
    var t := ToneOf(sentiment);
    TemplateShape(Opening(t), IntToDecimal(wordCount), Request(t), prompt);
    Opening(t) + IntToDecimal(wordCount) + Request(t) + prompt
  }

  /** The shape of any template filled in with a count `d` and a prompt `p`. */
  lemma TemplateShape(o: string, d: string, q: string, p: string)
    requires |o| > 8 && o[..8] == "Write a "
    requires |q| > 7 && "-word" <= q && q[|q| - 2..] == ": "
    ensures var r := o + d + q + p;
            && |r| > 8 && r[..8] == "Write a "
            && r[|r| - |p| - 2..] == ": " + p
            && r[|o|..|o| + |d| + 5] == d + "-word"
  {
    Join4(o, d, q, p);
    var r := o + d + q + p;
    assert r[..8] == r[..|o|][..8];
    assert r[|r| - |p| - 2..] == r[|o| + |d|..|o| + |d| + |q|][|q| - 2..] + p;
    assert r[|o|..|o| + |d| + 5] == d + r[|o| + |d|..|o| + |d| + |q|][..5];
  }

  /** Where each part of a four-part concatenation ends up. */
  lemma Join4(a: string, b: string, c: string, d: string)
    ensures var r := a + b + c + d;
            && |r| == |a| + |b| + |c| + |d|
            && r == a + (b + (c + d))
            && r[..|a|] == a
            && r[|a|..|a| + |b|] == b
            && r[|a| + |b|..|a| + |b| + |c|] == c
            && r[|a| + |b| + |c|..] == d
  {
  }

  /** Equal strings with a common front have equal rests. */
  lemma CancelPrefix(x: string, y1: string, y2: string)
    requires x + y1 == x + y2
    ensures y1 == y2
  {
    assert y1 == (x + y1)[|x|..];
  }

  /** The three templates, written out. */
  lemma InstructionTemplates(prompt: string, wordCount: int)
    ensures Instruction(prompt, "positive", wordCount)
            == "Write a positive, uplifting " + IntToDecimal(wordCount) + "-word response about: " + prompt
    ensures Instruction(prompt, "negative", wordCount)
            == "Write a balanced, constructive " + IntToDecimal(wordCount)
               + "-word response addressing concerns about: " + prompt
    ensures Instruction(prompt, "neutral", wordCount)
            == "Write a neutral, informative " + IntToDecimal(wordCount) + "-word response about: " + prompt
  {
  }

  /** Every sentiment other than exactly "positive" or "negative" gets the neutral template. */
  lemma OtherSentimentsAreNeutral(prompt: string, sentiment: string, wordCount: int)
    requires sentiment != "positive" && sentiment != "negative"
    ensures Instruction(prompt, sentiment, wordCount) == Instruction(prompt, "neutral", wordCount)
  {
  }

  /** The comparison is case-sensitive: "Positive" and "" are neutral. */
  lemma TemplateChoiceIsCaseSensitive(prompt: string, wordCount: int)
    ensures Instruction(prompt, "Positive", wordCount) == Instruction(prompt, "neutral", wordCount)
    ensures Instruction(prompt, "NEGATIVE", wordCount) == Instruction(prompt, "neutral", wordCount)
    ensures Instruction(prompt, "", wordCount) == Instruction(prompt, "neutral", wordCount)
  {
  }

  /** In digits followed by a dash, the first non-digit is the dash. */
  lemma FirstNonDigit(a: string, x: string)
    requires AllDigits(a) && |x| > 0 && x[0] == '-'
    ensures !IsDigit((a + x)[|a|])
    ensures forall k :: 0 <= k < |a| ==> IsDigit((a + x)[k])
  {
  }

  lemma DigitsBeforeDash(a: string, x: string, b: string, y: string)
    requires AllDigits(a) && AllDigits(b)
    requires |x| > 0 && x[0] == '-' && |y| > 0 && y[0] == '-'
    requires a + x == b + y
    ensures a == b
  {
    FirstNonDigit(a, x);
    FirstNonDigit(b, y);
    assert |a| == |b|;
    assert a == (a + x)[..|a|];
    assert b == (b + y)[..|b|];
  }

  /** Two decimals each followed by text starting with a dash: the decimals agree. */
  lemma DecimalBeforeDash(i: int, x: string, j: int, y: string)
    requires |x| > 0 && x[0] == '-' && |y| > 0 && y[0] == '-'
    requires IntToDecimal(i) + x == IntToDecimal(j) + y
    ensures i == j
  {
    var d, e := IntToDecimal(i), IntToDecimal(j);
    assert (d + x)[0] == d[0] && (e + y)[0] == e[0];
    assert i < 0 <==> j < 0;
    if i < 0 {
      assert (d + x)[1..] == d[1..] + x;
      assert (e + y)[1..] == e[1..] + y;
      DigitsBeforeDash(d[1..], x, e[1..], y);
      assert d == "-" + d[1..] && e == "-" + e[1..];
    } else {
      DigitsBeforeDash(d, x, e, y);
    }
    IntToDecimalInjective(i, j);
  }

  /**
   The instruction determines its inputs: the template, the word count and the
   prompt can all be read back from it.
   */
  lemma InstructionInjective(p1: string, s1: string, w1: int, p2: string, s2: string, w2: int)
    requires Instruction(p1, s1, w1) == Instruction(p2, s2, w2)
    ensures ToneOf(s1) == ToneOf(s2) && w1 == w2 && p1 == p2
  {
    var t1, t2 := ToneOf(s1), ToneOf(s2);
    var d1, d2 := IntToDecimal(w1), IntToDecimal(w2);
    var q := Request(t1);
    Join4(Opening(t1), d1, q, p1);
    Join4(Opening(t2), d2, Request(t2), p2);
    InstructionTone(Opening(t1), d1 + (q + p1), t1, Opening(t2), d2 + (Request(t2) + p2), t2);
    assert (q + p1)[0] == q[0] == '-' && (q + p2)[0] == '-';
    DecimalBeforeDash(w1, q + p1, w2, q + p2);
    CancelPrefix(d1, q + p1, q + p2);
    CancelPrefix(q, p1, p2);
  }

  /** Equal texts that each start with a template opening used the same template. */
  lemma InstructionTone(o1: string, rest1: string, t1: Tone, o2: string, rest2: string, t2: Tone)
    requires o1 == Opening(t1) && o2 == Opening(t2)
    requires o1 + rest1 == o2 + rest2
    ensures t1 == t2 && rest1 == rest2
  {
    OpeningsDiffer(t1, t2);
    assert (o1 + rest1)[8] == o1[8] && (o2 + rest2)[8] == o2[8];
    CancelPrefix(o1, rest1, rest2);
  }

  /** The three openings differ at their ninth character. */
  lemma OpeningsDiffer(t1: Tone, t2: Tone)
    ensures |Opening(t1)| > 8 && |Opening(t2)| > 8
    ensures Opening(t1)[8] == Opening(t2)[8] ==> t1 == t2
  {
  }

  // ---------------------------------------------------------------------------
  // The fallback sentence
  // ---------------------------------------------------------------------------

  /** The opening clause per sentiment. */
  const Starters: map<string, string> := map[
    "positive" := "This presents exciting opportunities",
    "negative" := "There are important considerations",
    "neutral" := "This topic involves several aspects"
  ]

  /** The opening clause for any sentiment not in the table. */
  const DefaultStarter: string := "This is an interesting topic"

  /** The joint between the starter and the prompt. */
  const Regarding: string := " regarding "

  const Closing: string := ". The subject deserves careful analysis and thoughtful consideration of various perspectives and potential outcomes."

  /** Dictionary lookup with a default. */
  function Starter(sentiment: string): (s: string)
    ensures sentiment in Starters ==> s == Starters[sentiment]
    ensures sentiment !in Starters ==> s == DefaultStarter
    ensures |s| > 0
  {
    if sentiment in Starters then Starters[sentiment] else DefaultStarter
  }

  /**
   The canned text: the starter, Regarding, the prompt verbatim, then the
   fixed closing sentence, and nothing else.
   */
  function QuickFallback(prompt: string, sentiment: string): (r: string)
    ensures var n := |Starter(sentiment)|;
            && |r| == n + |Regarding| + |prompt| + |Closing|
            && r[..n] == Starter(sentiment)
            && r[n..n + |Regarding|] == Regarding
            && r[n + |Regarding|..n + |Regarding| + |prompt|] == prompt
            && r[n + |Regarding| + |prompt|..] == Closing
  {
    Join4(Starter(sentiment), Regarding, prompt, Closing);
    Starter(sentiment) + Regarding + prompt + Closing
  }

  /** The fallback text gives back the prompt: different prompts give different texts. */
  lemma FallbackDeterminesPrompt(p1: string, p2: string, sentiment: string)
    requires QuickFallback(p1, sentiment) == QuickFallback(p2, sentiment)
    ensures p1 == p2
  {
    var i := |Starter(sentiment)| + |Regarding|;
    var r := QuickFallback(p1, sentiment);
    assert |p1| == |p2|;
    assert r[i..i + |p1|] == p1 && r[i..i + |p2|] == p2;
  }

  /**
   A sentiment outside the table gets the default starter, which is not the
   neutral one, although the template choice treats it as neutral.
   */
  lemma UnknownSentimentStarter(sentiment: string)
    requires sentiment !in {"positive", "negative", "neutral"}
    ensures Starter(sentiment) == DefaultStarter
    ensures Starter(sentiment) != Starter("neutral")
    ensures ToneOf(sentiment) == ToneOf("neutral")
  {
    assert Starter("neutral") == "This topic involves several aspects";
  }

  // ---------------------------------------------------------------------------
  // Generation
  // ---------------------------------------------------------------------------

  /** What the remote call gives back: text, or any failure (timeout, transport, service). */
  datatype Reply = Replied(text: string) | Failed

  /**
   The remote service, seen from one generation call: its reply to the
   `n`-th request the call would send (0 for the first) with a credential
   and an instruction. The service may answer a repeated request differently.
   */
  type Remote = (string, string, nat) -> Reply

  /** Which path produced the text. */
  datatype Outcome = Generated(text: string) | FellBack(text: string)

  /**
   `generate_sentiment_aligned_text`: one remote call with the instruction;
   its text stripped on success, the fallback sentence on any failure.
   */
  function Generate(g: Gemini, remote: Remote,
                    prompt: string, sentiment: string, wordCount: int): (r: Outcome)
    ensures var reply := remote(g.apiKey, Instruction(prompt, sentiment, wordCount), 0);
            && (r.FellBack? <==> reply.Failed?)
            && (r.Generated? ==> r.text == Strip(reply.text))
            && (r.FellBack? ==> r.text == QuickFallback(prompt, sentiment))
  {
    match remote(g.apiKey, Instruction(prompt, sentiment, wordCount), 0)
    case Replied(text) => Generated(Strip(text))
    case Failed => FellBack(QuickFallback(prompt, sentiment))
  }

  /**
   The outcome depends on the remote service only through its reply to the
   first request, with this call's instruction: two services that agree on
   that reply give the same outcome, however they would answer a second
   request. So a failure is never retried.
   */
  lemma GenerateUsesOneRequest(g: Gemini, remote1: Remote, remote2: Remote,
                               prompt: string, sentiment: string, wordCount: int)
    requires remote1(g.apiKey, Instruction(prompt, sentiment, wordCount), 0)
             == remote2(g.apiKey, Instruction(prompt, sentiment, wordCount), 0)
    ensures Generate(g, remote1, prompt, sentiment, wordCount) == Generate(g, remote2, prompt, sentiment, wordCount)
  {
  }

  /** On failure the caller still gets a non-empty text that opens with the starter and quotes the prompt. */
  lemma FailureGivesFallback(g: Gemini, remote: Remote,
                             prompt: string, sentiment: string, wordCount: int)
    requires remote(g.apiKey, Instruction(prompt, sentiment, wordCount), 0).Failed?
    ensures var r := Generate(g, remote, prompt, sentiment, wordCount);
            && r.FellBack?
            && |r.text| > |prompt|
            && Starter(sentiment) <= r.text
            && r.text[|Starter(sentiment)| + |Regarding|..][..|prompt|] == prompt
  {
    var r := Generate(g, remote, prompt, sentiment, wordCount);
    assert r.text == QuickFallback(prompt, sentiment);
  }

  /** On success the text is the reply with surrounding whitespace removed; stripping it again changes nothing. */
  lemma SuccessGivesStrippedReply(g: Gemini, remote: Remote,
                                  prompt: string, sentiment: string, wordCount: int)
    requires remote(g.apiKey, Instruction(prompt, sentiment, wordCount), 0).Replied?
    ensures var reply := remote(g.apiKey, Instruction(prompt, sentiment, wordCount), 0).text;
            var r := Generate(g, remote, prompt, sentiment, wordCount);
            && r.Generated?
            && Trimmed(r.text)
            && r.text == Strip(reply)
            && Strip(r.text) == r.text
  {
    var reply := remote(g.apiKey, Instruction(prompt, sentiment, wordCount), 0).text;
    assert Generate(g, remote, prompt, sentiment, wordCount) == Generated(Strip(reply));
    StripIdempotent(reply);
  }
}
