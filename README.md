# Sentiment-aligned text generator: a Dafny model of its core

The application takes a prompt and answers with text in the same mood. Two
components do the work:

- **The fast keyword sentiment analyzer.** It lower-cases the text and splits
  it into word tokens. It counts the tokens found in a fixed set of 20 positive
  words and in a fixed set of 20 negative words. It reports `positive`,
  `negative` or `neutral` with a confidence. A polar label gets
  `min(0.6 + 0.1 * count, 0.95)`; a tie gets `0.65`.
- **The fast Gemini text generator.** It picks a credential when it is built:
  the explicit key if it is non-empty, otherwise `GOOGLE_API_KEY`, otherwise a
  `ValueError`. It formats one of three instruction templates and makes one
  remote call. On success it returns the reply with whitespace stripped. On
  any failure it returns a canned fallback sentence.

The model is split into modules:

- `Strings`: decimal formatting of an integer, as an f-string does with an
  `int`. Also stripping surrounding whitespace, as `str.strip()` does.
- `Sentiment`: the word sets, lower-casing, the `\b\w+\b` tokeniser, the
  counts, the decision rule and `analyze`.
- `SentimentExamples`: worked inputs, each evaluated end to end.
- `Generator`: credential choice, template choice, the fallback sentence, and
  generation with its failure path. The remote model is a function parameter
  from (credential, instruction, request number within the call) to a
  `Reply`, which is either `Replied(text)` or `Failed`. The request number
  lets the service answer a repeated request differently, so a retry would
  be visible.
- `Pipeline`: how the application connects the two components. The detected
  label's name is passed to the generator as its sentiment. A manual override
  is the lower-cased menu entry.

Confidences are integer hundredths: 0.65 is `65` and 0.95 is `95`.

The polar formula starts from a base of 0.6, but a polar label needs at
least one matching word, so its confidence is never below 0.7. A tie gives
0.65. Every confidence the analyzer returns therefore lies between 0.65 and
0.95, which `Sentiment.DecideConfidenceRange` proves.

## Model

| member | source | states |
|---|---|---|
| Sentiment.WordSetsDisjoint | sentiment_fast.py:6-16 | no word is both positive and negative, so one token never counts on both sides |
| Sentiment.WordSetsLowerCase | sentiment_fast.py:6-16 | every listed word is a non-empty lower-case run of word characters, so each one can actually be matched by a token of lower-cased text |
| Sentiment.PositiveWordsLowerCase | sentiment_fast.py:6-10 | the positive words are lower-case word-character runs |
| Sentiment.NegativeWordsLowerCase | sentiment_fast.py:12-16 | the negative words are lower-case word-character runs |
| Sentiment.LabelName | sentiment_fast.py:28-35 | the reported label is one of `positive`, `negative`, `neutral` |
| Sentiment.LabelNameInjective | sentiment_fast.py:28-35 | different labels have different names |
| Sentiment.Lower | sentiment_fast.py:22 | lower-casing keeps the length and maps every character through the ASCII lower-case map |
| Sentiment.ToLower | sentiment_fast.py:22 | the per-character map: an upper-case ASCII letter becomes its lower-case partner, any other character is kept; the result is never upper-case and is a word character exactly when the input is |
| Sentiment.IsWordChar | sentiment_fast.py:23 | the `\w` class, ASCII only: the underscore belongs to it; apostrophe, hyphen and space do not, so they split words |
| Sentiment.LowerAppend | sentiment_fast.py:22 | lower-casing distributes over concatenation |
| Sentiment.RunLength | sentiment_fast.py:23 | the length of the maximal run of word characters at the front of the text |
| Sentiment.Tokens | sentiment_fast.py:23 | every token found is a non-empty run of word characters |
| Sentiment.RunLengthExact | sentiment_fast.py:23 | a word followed by a non-word character (or by nothing) is one whole run |
| Sentiment.TokensOfWord | sentiment_fast.py:23 | a single word is found as exactly one token |
| Sentiment.TokensOfSeparators | sentiment_fast.py:23 | text without word characters has no tokens |
| Sentiment.TokensSplit | sentiment_fast.py:23 | a non-word character splits the text: the tokens of `a + [c] + b` are the tokens of `a` followed by those of `b` |
| Sentiment.TokensOfJoin | sentiment_fast.py:23 | words joined by spaces are found back as exactly those words, in order |
| Sentiment.TextTokens | sentiment_fast.py:22-23 | the tokens of the lower-cased text: each is a word, and none contains an upper-case letter |
| Sentiment.LowerTokens | sentiment_fast.py:22-23 | text without upper-case letters has tokens without upper-case letters |
| Sentiment.Count | sentiment_fast.py:25-26 | the number of tokens in a word set is at most the number of tokens |
| Sentiment.CountCons | sentiment_fast.py:25-26 | counting a token list in front of one more token |
| Sentiment.CountAppend | sentiment_fast.py:25-26 | the count over two token lists is the sum of the counts |
| Sentiment.CountOccurrences | sentiment_fast.py:25-26 | counting against a one-word set gives that word's multiplicity |
| Sentiment.CountPermutation | sentiment_fast.py:25-26 | the count does not depend on token order: any permutation gives the same count |
| Sentiment.CountDisjoint | sentiment_fast.py:25-26 | for disjoint word sets, the two counts together do not exceed the number of tokens |
| Sentiment.CountOutside | sentiment_fast.py:25-26 | tokens that are all outside the set count zero |
| Sentiment.PositiveCount | sentiment_fast.py:25 | the number of tokens of the text that are positive words: at most the number of tokens, and zero when no token is a positive word |
| Sentiment.NegativeCount | sentiment_fast.py:26 | the same for the negative words |
| Sentiment.CountsBounded | sentiment_fast.py:25-26 | positive plus negative count is at most the number of tokens |
| Sentiment.PolarConfidence | sentiment_fast.py:29 | `min(60 + 10 * count, 95)`: never above 95; exactly 95 from four words on |
| Sentiment.Decide | sentiment_fast.py:28-35 | positive iff more positive words, negative iff more negative words, neutral iff a tie; polar confidence from the winning count, 65 on a tie |
| Sentiment.DecideConfidenceRange | sentiment_fast.py:28-35 | confidence always lies in 65..95, and a polar confidence is one of 70, 80, 90, 95 |
| Sentiment.DecideSymmetric | sentiment_fast.py:28-35 | swapping the two counts swaps positive and negative and keeps the confidence |
| Sentiment.DecideMonotone | sentiment_fast.py:28-32 | one more positive word keeps a positive result positive and never lowers its confidence |
| Sentiment.Analyze | sentiment_fast.py:18-35 | the label compares the two counts over the tokens of the lower-cased text; confidence from the winning count or 65; always within 65..95 |
| Sentiment.AnalyzeIgnoresCase | sentiment_fast.py:22 | texts equal up to letter case get the same analysis |
| Sentiment.LowerWordIsToken | sentiment_fast.py:22-23 | a non-empty lower-case word-character run is a word and is unchanged by lower-casing |
| Sentiment.TextTokensOfWord | sentiment_fast.py:22-23 | a single word, in any case, is found as one token: its lower-cased self |
| Sentiment.CountsSplitAtSeparator | sentiment_fast.py:22-26 | the counts of two texts joined by a non-word character are the sums of their counts |
| Sentiment.NeutralWordIgnored | sentiment_fast.py:25-35 | inserting, between spaces, a word that is in neither set does not change the analysis |
| Sentiment.SetWordCounted | sentiment_fast.py:25-26 | a word inserted between spaces adds one to the positive count iff it is a positive word, and one to the negative count iff it is a negative word |
| Sentiment.AnalyzeOfTokens | sentiment_fast.py:18-35 | the analysis of a text whose tokens are known is the decision on their counts |
| SentimentExamples.TokensOfLowered | sentiment_fast.py:22-23 | a text whose lower-cased form is words joined by spaces is read as exactly those words |
| SentimentExamples.DislikeIsNotLike | sentiment_fast.py:22-33 | "I dislike it" is tokenised as whole words, so `dislike` does not count as `like`: negative at 70 |
| SentimentExamples.LoveAmazingExample | sentiment_fast.py:22-30 | "I love this amazing product" is positive at 80 |
| SentimentExamples.MeetingExample | sentiment_fast.py:22-35 | "The meeting is at 3pm" is neutral at 65 |
| SentimentExamples.ConfidenceCapExample | sentiment_fast.py:22-30 | five occurrences of `great`, in mixed case, reach the 95 cap |
| Generator.Configure | text_generator_fast.py:13-18 | success iff some source holds a non-empty key; the explicit key wins; the configured key is never empty; otherwise the `MissingApiKey` error with the source's message |
| Generator.ExplicitKeyWins | text_generator_fast.py:13-14 | with a non-empty explicit key, the environment has no influence |
| Generator.EmptyKeyIsAbsent | text_generator_fast.py:13-17 | an empty string in either source behaves exactly as a missing value |
| Generator.ToneOf | text_generator_fast.py:37-42 | uplifting iff exactly `positive`, constructive iff exactly `negative`, informative for every other string |
| Generator.Opening | text_generator_fast.py:38-42 | the template text before the word count; every one starts with "Write a " |
| Generator.Request | text_generator_fast.py:38-42 | the template text between the word count and the prompt; every one starts with "-word" and ends with ": " |
| Generator.Instruction | text_generator_fast.py:37-42 | the instruction sent: it opens with "Write a ", has the decimal word count followed by "-word" right after the template's opening, and ends with ": " and the verbatim prompt |
| Generator.TemplateShape | text_generator_fast.py:38-42 | the same shape for any opening and request of the template's form |
| Generator.InstructionTemplates | text_generator_fast.py:37-42 | the three instructions, written out for each sentiment |
| Generator.OtherSentimentsAreNeutral | text_generator_fast.py:41-42 | any other sentiment string gets exactly the neutral template |
| Generator.TemplateChoiceIsCaseSensitive | text_generator_fast.py:37-42 | `Positive`, `NEGATIVE` and the empty string fall through to the neutral template |
| Generator.FirstNonDigit | text_generator_fast.py:38-42 | in digits followed by a dash, the dash is the first non-digit |
| Generator.DigitsBeforeDash | text_generator_fast.py:38-42 | two digit strings each followed by text starting with a dash, giving the same text, are equal |
| Generator.DecimalBeforeDash | text_generator_fast.py:38-42 | the formatted count followed by "-word" determines the count |
| Generator.InstructionTone | text_generator_fast.py:37-42 | equal texts that each start with a template opening used the same template and have the same rest |
| Generator.OpeningsDiffer | text_generator_fast.py:38-42 | the three openings differ at their ninth character |
| Generator.InstructionInjective | text_generator_fast.py:37-42 | the instruction determines the template, the word count and the prompt: different requests are never sent as the same text |
| Generator.Starter | text_generator_fast.py:58-64 | dictionary lookup with a default: the table entry for a known sentiment, the default starter otherwise; never empty |
| Generator.QuickFallback | text_generator_fast.py:56-65 | the fallback is exactly the starter, then " regarding ", then the prompt verbatim, then the fixed closing sentence: each part at its position, and nothing else (the length is the sum of the parts) |
| Generator.FallbackDeterminesPrompt | text_generator_fast.py:65 | different prompts give different fallback texts |
| Generator.UnknownSentimentStarter | text_generator_fast.py:58-64 | an unknown sentiment gets the default starter, not the neutral one, although it gets the neutral template |
| Generator.Generate | text_generator_fast.py:31-54 | falls back iff the first request's reply is a failure; on success the text is that reply stripped, on failure the fallback sentence |
| Generator.GenerateUsesOneRequest | text_generator_fast.py:45-54 | two services that give the same reply to the first request give the same outcome, however they would answer a second request: a failure is not retried |
| Generator.FailureGivesFallback | text_generator_fast.py:52-54 | on failure the caller still gets non-empty text that opens with the starter and quotes the prompt |
| Generator.SuccessGivesStrippedReply | text_generator_fast.py:45-50 | on success the text is the stripped reply, has no surrounding whitespace, and stripping it again changes nothing |
| Strings.NatToDecimal | text_generator_fast.py:38 | the decimal form of a natural number is non-empty, all digits, with no leading zero |
| Strings.NatToDecimalRoundTrip | text_generator_fast.py:38 | reading the digits back gives the number |
| Strings.IntToDecimal | text_generator_fast.py:38 | an integer's form starts with a minus sign iff it is negative, and is otherwise digits |
| Strings.IntToDecimalRoundTrip | text_generator_fast.py:38 | reading the formatted integer back gives the integer |
| Strings.IntToDecimalInjective | text_generator_fast.py:38 | different word counts are formatted differently |
| Strings.IsSpace | text_generator_fast.py:50 | the `str.isspace()` class: space, tab, newline and carriage return belong to it; no letter, digit or underscore does, and neither does the zero-width space |
| Strings.LeadingSpace | text_generator_fast.py:50 | counts exactly the leading whitespace: that many characters are all whitespace and the next one, if any, is not |
| Strings.TrailingSpace | text_generator_fast.py:50 | counts exactly the trailing whitespace, symmetrically |
| Strings.Strip | text_generator_fast.py:50 | the result has no whitespace at either end; it is the contiguous part of the input right after the leading whitespace, with only whitespace before and after it |
| Strings.LeadingSpaceOf | text_generator_fast.py:50 | whitespace in front of text that does not start with whitespace is exactly what is counted |
| Strings.TrailingSpaceOf | text_generator_fast.py:50 | whitespace after text that does not end with whitespace is exactly what is counted |
| Strings.StripCharacterised | text_generator_fast.py:50 | text with no surrounding whitespace, padded with any whitespace, strips back to itself |
| Strings.StripIdempotent | text_generator_fast.py:50 | stripping twice is the same as stripping once |
| Pipeline.LabelSelectsTemplateAndStarter | text_generator_fast.py:37-64 | each label's name selects its own template and has its own starter, never the default one |
| Pipeline.DetectedSentimentIsKnown | app.py:80-82 | whatever the text, the detected sentiment passed on is known to both the template choice and the starter table |
| Pipeline.OverrideSelectsTemplate | app.py:84 | the lower-cased override entries select the matching templates |
| Pipeline.LoveAmazingFallback | app.py:80-117 | end to end, with the remote call failing: the analyzer's label for the prompt, passed on by name as the application does, is `positive`, and the caller gets the positive fallback quoting the prompt |
| Pipeline.LoveAmazingFallbackText | text_generator_fast.py:56-65 | the positive fallback for that prompt, written out |

## Left out

- The remote call is a parameter. The network request, its 10-second timeout, the sampling settings, `genai.configure` and the model construction are not modelled. Every exception, including one raised while reading the reply's text, becomes the single reply `Failed`.
- Reading `.env` and the environment is left out. The value of `GOOGLE_API_KEY` is a parameter, and both reads of it are taken to see the same value.
- Printing the error message before falling back is left out, because it is output only.
- Generator.Generate: the source's default `word_count=150` is not modelled as a default; callers pass the count. The count is taken to be an `int`, since other types would be formatted differently.
- Sentiment.Lower: lower-casing is ASCII only. Python's `str.lower()` also maps non-ASCII letters, and those are not modelled.
- Sentiment.Tokens: a word character is an ASCII letter, a digit or `_`. Python's Unicode `\w` also accepts other letters and digits, so text with non-ASCII letters is tokenised differently.
- Sentiment.PolarConfidence: confidences are exact hundredths. The source's floating-point sum (for example `0.6 + 3 * 0.1` is not exactly `0.9`) is not modelled.
- Whitespace for stripping is the set of characters `str.isspace()` accepts, listed by code point; nothing else about Unicode is modelled.
- Sentiment.WordSetsDisjoint: the model does not prove that each word set has exactly 20 elements. Set cardinality over these literals is too costly for the verifier.
- The web page is left out: the layout, the emoji map, the length menu mapped to 75/150/250 words, confidence 1.0 for a manual override, and the word count of the generated text. These are presentation only.
