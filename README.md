# Heuristic text assessment, modelled in Dafny

This project models the `Assessment` class of an English-practice tutor
(`utils/assessment.py`). The class keeps no state. Each of its three
methods computes a report from the word tokens and sentences of a text:

- `assess_pronunciation`: word count, sentence count, mean token length and a
  complexity score capped at 100. It also returns three constant placeholder
  scores (85, 78, 92) that do not depend on the text.
- `assess_vocabulary`: token count, distinct-token count, and the number of
  distinct alphabetic tokens outside a fixed 20-word common-word set. A ratio
  score capped at 100 is derived from these counts.
- `assess_grammar`: six fixed pattern checks run in a fixed order. They build
  a list of messages with no duplicates. The error count then becomes a score:
  100 minus 20 per error, floored at 0, and 100 when the text has no sentences.

Files:

- `patterns.dfy` (module `Patterns`): the six regular expressions of the
  grammar checks, in three shapes (`Pattern`), each written as a predicate for
  "a match starts at position k". It defines `\w`, `\s`, `\b`, and
  case-sensitive and `re.IGNORECASE` literal matching. `re.search` is a scan
  over the start positions from left to right (`SearchFrom`). It is proved to
  succeed exactly when some start position matches.
- `assessment.dfy` (module `Assessment`): the three reports.
  `AssessPronunciation` and `AssessVocabulary` are functions, as in the
  source. `AssessGrammar` is a method: it builds the message list step by
  step, with a loop over the four-entry `common_mistakes` table and the same
  membership test before each append. It is proved equal to a reference
  definition, `Flagged`. The properties of `Flagged` are proved as lemmas.
- `examples.dfy` (module `AssessmentExamples`): reports for concrete texts,
  and the case behaviour of the grammar patterns.

The word tokeniser and the sentence tokeniser are NLTK's. They are not part
of this model, so each report takes the token sequences as inputs.
`AssessVocabulary` takes the word tokens of the lower-cased text, since
`assess_vocabulary` lower-cases the text before tokenising it. Every report
is a function of its inputs, so calling a scorer twice with the same input
gives the same result.

Where the documented behaviour and the code disagree, the model follows the code:

- NLTK's `word_tokenize` emits punctuation as tokens, and `word_count`
  counts them. For "I am happy." the code gives `word_count = 4` and
  `complexity_score = 13`, not 3 and 11 (`IAmHappyPronunciation`).
- The subject–verb and article patterns are searched case-sensitively. Only
  the four table patterns use `re.IGNORECASE`. So "They is" is not flagged
  (`SubjectVerbIsCaseSensitive`). A correct capital "I" is flagged with
  'Use "I" instead of "i"' (`CapitalIIsFlagged`).
- The subject–verb pattern has no `\b` after the verb.
- The article pattern also flags "an" before a vowel (`ArticleFlagsAnBeforeVowel`).

## Model

| member | source | states |
|---|---|---|
| Assessment.AverageTokenLength | utils/assessment.py:26 | the mean token length is non-negative; times the token count it gives the total character count; it is exactly 0 when there are no tokens (no division by zero) |
| Assessment.ComplexityScore | utils/assessment.py:29 | the complexity score is `min(100, 2·words + 5·sentences)`: at most 100, at most the linear sum, and equal to one of the two |
| Assessment.AssessPronunciation | utils/assessment.py:13-39 | word and sentence counts are the lengths of the token and sentence sequences; complexity lies in [0,100], is the capped linear sum, and is 0 exactly for empty input; mean length times count is the total length, and is 0 for no tokens; the three placeholder scores are 85, 78, 92 whatever the text |
| Assessment.ComplexityMonotone | utils/assessment.py:29 | more tokens or more sentences never lower the complexity score |
| Assessment.TotalLengthBounds | utils/assessment.py:26 | the summed token length lies between the token count times a lower bound and times an upper bound on the token lengths |
| Assessment.AverageWithinTokenLengths | utils/assessment.py:26 | for a non-empty token list and any sentences, the reported mean length lies between the shortest and the longest token length |
| Assessment.UncommonWords | utils/assessment.py:46-55 | the uncommon words are distinct tokens; each is alphabetic and outside the 20 common words; every such token of the text is one of them |
| Assessment.VocabularyScore | utils/assessment.py:58-64 | the score lies in [0,100]; it is 0 exactly when there are no tokens or no uncommon words; with tokens it is 100 exactly when uncommon words make up at least half the tokens, and otherwise it is 200·uncommon/total |
| Assessment.AssessVocabulary | utils/assessment.py:41-71 | total is the token count; unique is the size of `set(words)`; uncommon is the number of uncommon words; uncommon ≤ unique ≤ total, with unique = total exactly when no token repeats; the score is the ratio score of these counts and lies in [0,100]; empty input gives the all-zero report |
| Assessment.UniqueCount | utils/assessment.py:52 | `set(words)` has at most as many elements as the token list, and exactly as many when no token repeats |
| Assessment.UncommonAtMostUnique | utils/assessment.py:55 | there are no more uncommon words than distinct tokens |
| Assessment.VocabularyScoreMonotone | utils/assessment.py:61-62 | for a fixed token count, more distinct uncommon words never lower the vocabulary score |
| Assessment.VocabularyScoreDiluted | utils/assessment.py:61-62 | for fixed uncommon words, more tokens never raise the vocabulary score |
| Assessment.NewUncommonWordCounts | utils/assessment.py:52-55 | appending a new alphabetic, non-common token adds exactly that word to the uncommon words, so their count grows by one |
| Assessment.MessageInjective | utils/assessment.py:82-94 | the six messages are pairwise different, so each check reports a message of its own |
| Assessment.CommonMistakesFollowInlineChecks | utils/assessment.py:90-95 | the four table entries are the third to sixth checks, in order |
| Assessment.FiringUpToMembers | utils/assessment.py:78-100 | after the first n checks, a check is reported exactly when it is among the first n and its pattern matches |
| Assessment.FiringUpToOrdered | utils/assessment.py:78-100 | after the first n checks, at most n checks are reported, each among the first n, in strictly increasing check order |
| Assessment.MessageListed | utils/assessment.py:99 | a message is in the list exactly when its check is; this is what makes the `not in errors` test decidable from the checks run so far |
| Assessment.FlaggedIffFires | utils/assessment.py:78-100 | a check's message is in the reported list exactly when its pattern matches the text |
| Assessment.FlaggedOrderedAndDistinct | utils/assessment.py:78-100 | the reported list has at most six messages, follows the order subject–verb, article, lowercase-i, contractions, their/there, your/you're, and never holds the same message twice |
| Assessment.EmptyTextFlagsNothing | utils/assessment.py:78-100 | no pattern matches the empty text, so its message list is empty |
| Assessment.NothingFiresNothingListed | utils/assessment.py:78-100 | when no pattern matches, none of the first n checks is reported |
| Assessment.GrammarScore | utils/assessment.py:103-110 | the score lies in [0,100] and is a multiple of 20; it is 100 when there are no sentences; with sentences it is 100 − 20·errors below five errors, 100 exactly when there are none, and 0 exactly from five errors on |
| Assessment.GrammarScoreAntitone | utils/assessment.py:107-108 | more errors never raise the grammar score |
| Assessment.TableStep | utils/assessment.py:97-100 | each table entry is searched with `re.IGNORECASE`; its message is never already in the list when the loop reaches it; so the conditional append extends the list exactly as the reference list grows by that check |
| Assessment.InlineChecks | utils/assessment.py:78-87 | after the two inline checks, the list holds the subject–verb message if that pattern matches, then the article message if that pattern matches |
| Assessment.AssessGrammar | utils/assessment.py:73-117 | the message list is the reference list `Flagged`, has at most six entries and no duplicates; error count is its length; sentence count is the number of sentences; the score is the grammar score of these counts, so 100 when there are no sentences; the empty text reports no errors |
| Patterns.SearchFromSound | utils/assessment.py:81-98 | `re.search` finds nothing when the pattern matches at no start position |
| Patterns.SearchFromComplete | utils/assessment.py:81-98 | `re.search` succeeds when the pattern matches at some start position |
| Patterns.WordMatchIgnoresCase | utils/assessment.py:97-98 | under `re.IGNORECASE`, a table pattern matches at a position of a text exactly when it matches there in the lower-cased text |
| Patterns.SearchIgnoresCase | utils/assessment.py:97-98 | a table pattern, searched with `re.IGNORECASE`, matches a text exactly when it matches the lower-cased text |
| Patterns.MissingCharRulesOutLiteral | utils/assessment.py:81-94 | a literal of a pattern cannot match anywhere in a text that lacks one of its characters |
| AssessmentExamples.IAmHappyPronunciation | utils/assessment.py:18-38 | for the tokens of "I am happy." (four, with the full stop) and one sentence: counts 4 and 1, mean length 2.25, complexity 13 |
| AssessmentExamples.EmptyTextPronunciation | utils/assessment.py:18-38 | the empty text gives counts 0, mean length 0 and complexity 0 |
| AssessmentExamples.RepeatedCommonWordVocabulary | utils/assessment.py:43-64 | "the the the the serendipity" gives 5 tokens, 2 distinct, 1 uncommon, score 40 |
| AssessmentExamples.IDontKnowMatches | utils/assessment.py:91-92 | in "i dont know." the lowercase-i and contraction patterns match |
| AssessmentExamples.IDontKnowNoPhrase | utils/assessment.py:81-85 | in "i dont know." neither the subject–verb nor the article pattern matches |
| AssessmentExamples.IDontKnowNoHomophone | utils/assessment.py:93-94 | in "i dont know." neither homophone pattern matches |
| AssessmentExamples.IDontKnowGrammar | utils/assessment.py:78-110 | "i dont know." is reported with exactly the lowercase-i and contraction messages, in that order, and scores 60 with one sentence |
| AssessmentExamples.CapitalIIsFlagged | utils/assessment.py:91-98 | the lowercase-i check also matches a capital "I", because it runs with `re.IGNORECASE` |
| AssessmentExamples.SubjectVerbIsCaseSensitive | utils/assessment.py:81 | "they is" matches the subject–verb pattern and "They is" does not |
| AssessmentExamples.ArticleFlagsAnBeforeVowel | utils/assessment.py:85 | the article pattern matches "an apple" |
| AssessmentExamples.NoSubjectVerb | utils/assessment.py:81 | the subject–verb pattern cannot match a text that lacks a character of each pronoun |
| AssessmentExamples.NoArticle | utils/assessment.py:85 | the article pattern cannot match a text without the letter "a" |

## Left out

- `Assessment.__init__` (utils/assessment.py:6-11): it looks up NLTK's `punkt` data and may download it. This is file and network I/O.
- The tokenisers `word_tokenize` and `sent_tokenize`: NLTK code. The reports take the token and sentence sequences as inputs. The model does not capture how they are derived from the text.
- `text.lower()` before tokenising in `assess_vocabulary`: the model receives the tokens of the already lower-cased text.
- The unused `audio_features` parameter of `assess_pronunciation`.
- Floating point: `avg_word_length` and `vocabulary_score` are exact `real`s. Rounding of Python floats is not modelled. Neither is Python's choice between `int` and `float` results (`0`, or `100` from `min`, versus a float).
- Non-ASCII text: `\w`, `str.isalpha()` and the case folding of `re.IGNORECASE` cover ASCII characters only. Python extends all three to Unicode, for example the dotless "ı" matching "i" under `re.IGNORECASE`. `\s` does cover every character for which Python's `str.isspace()` holds.
- The returned dictionaries are datatypes, and the `errors` list is a sequence that the method reassigns. The list is local to the call, so no aliasing is lost.
- The page, database, AI-client, speech and chart modules of the application: they are UI rendering, SQLite access, calls to external services and random choice of canned text.
