/** Worked inputs: the reports for a few concrete texts, and the case behaviour
    of the grammar patterns. Word tokens are given as NLTK's `word_tokenize`
    produces them, punctuation included. The grammar examples take their text
    as a parameter fixed by `requires t == "..."` rather than binding it in the
    body: with a string literal as argument the verifier expands the position
    scan of `re.search` at every index of the text, which makes these proofs
    run out of resources. */
module AssessmentExamples {
  import opened Patterns
  import opened Assessment

  /** "I am happy." has four word tokens (the full stop is one) and one sentence. */
  lemma IAmHappyPronunciation()
    ensures AssessPronunciation(["I", "am", "happy", "."], ["I am happy."])
            == PronunciationReport(4, 1, 2.25, 13, 85, 78, 92)
  {
    assert TotalLength(["I", "am", "happy", "."]) == 9;
  }

  /** The empty text: all counts zero, average length zero, complexity zero. */
  lemma EmptyTextPronunciation()
    ensures AssessPronunciation([], []) == PronunciationReport(0, 0, 0.0, 0, 85, 78, 92)
  {
  }

  /** Four repetitions of a common word dilute one rare word to a score of 40. */
  lemma RepeatedCommonWordVocabulary()
    ensures AssessVocabulary(["the", "the", "the", "the", "serendipity"])
            == VocabularyReport(5, 2, 1, 40.0)
  {
    var words := ["the", "the", "the", "the", "serendipity"];
    assert UniqueWords(words) == {"the", "serendipity"};
    assert IsAlpha("serendipity");
    assert UncommonWords(words) == {"serendipity"};
  }

  /** In "i dont know." the standalone lower-case "i" and "dont" match... */
  lemma IDontKnowMatches(t: string)
    requires t == "i dont know."
    ensures Fires(LowercaseI, t) && Fires(Contraction, t)
  {
    var standaloneI, contractions := PatternOf(LowercaseI), PatternOf(Contraction);
    assert WordAt(t, 0, standaloneI.alternatives[0], true);
    assert MatchesAt(standaloneI, t, 0, true);
    SearchFromComplete(standaloneI, t, 0, 0, true);
    assert WordAt(t, 2, contractions.alternatives[0], true);
    assert MatchesAt(contractions, t, 2, true);
    SearchFromComplete(contractions, t, 0, 2, true);
  }

  /** ... neither of the case-sensitive phrase patterns matches... */
  lemma IDontKnowNoPhrase(t: string)
    requires t == "i dont know."
    ensures !Fires(SubjectVerb, t) && !Fires(Article, t)
  {
    NoSubjectVerb(t, 0, 0, 1, 2);
    NoArticle(t);
  }

  /** ... and neither of the homophone patterns does. */
  lemma IDontKnowNoHomophone(t: string)
    requires t == "i dont know."
    ensures !Fires(TheirThere, t) && !Fires(YourYoure, t)
  {
    var their, your := PatternOf(TheirThere), PatternOf(YourYoure);
    MissingCharRulesOutLiteral(t, their.alternatives[0], true, 1);
    MissingCharRulesOutLiteral(t, their.alternatives[1], true, 1);
    MissingCharRulesOutLiteral(t, their.alternatives[2], true, 1);
    MissingCharRulesOutLiteral(t, your.alternatives[0], true, 0);
    MissingCharRulesOutLiteral(t, your.alternatives[1], true, 0);
    forall k | 0 <= k <= |t| ensures !MatchesAt(their, t, k, true) && !MatchesAt(your, t, k, true) {
      forall j | 0 <= j < |their.alternatives| ensures !LiteralAt(t, k, their.alternatives[j], true) {
      }
      forall j | 0 <= j < |your.alternatives| ensures !LiteralAt(t, k, your.alternatives[j], true) {
      }
    }
    SearchFromSound(their, t, 0, true);
    SearchFromSound(your, t, 0, true);
  }

  /** "i dont know." is reported with two messages, in check order, and scores 60. */
  lemma IDontKnowGrammar(t: string)
    requires t == "i dont know."
    ensures Flagged(t) == [Message(LowercaseI), Message(Contraction)]
    ensures GrammarScore(|Flagged(t)|, 1) == 60
  {
    IDontKnowMatches(t);
    IDontKnowNoPhrase(t);
    IDontKnowNoHomophone(t);
    assert FiringUpTo(t, 1) == [];
    assert FiringUpTo(t, 2) == [];
    assert FiringUpTo(t, 3) == [LowercaseI];
    assert FiringUpTo(t, 4) == [LowercaseI, Contraction];
    assert FiringUpTo(t, 5) == [LowercaseI, Contraction];
  }

  /** The lower-case-i check runs with `re.IGNORECASE`, so a correct capital "I" is flagged too. */
  lemma CapitalIIsFlagged(t: string)
    requires t == "I am happy."
    ensures Fires(LowercaseI, t)
  {
    var standaloneI := PatternOf(LowercaseI);
    assert WordAt(t, 0, standaloneI.alternatives[0], true);
    assert MatchesAt(standaloneI, t, 0, true);
    SearchFromComplete(standaloneI, t, 0, 0, true);
  }

  /** The subject–verb check is case-sensitive: "they is" is flagged, "They is" is not. */
  lemma SubjectVerbIsCaseSensitive(t: string, capitalised: string)
    requires t == "they is" && capitalised == "They is"
    ensures Fires(SubjectVerb, t)
    ensures !Fires(SubjectVerb, capitalised)
  {
    assert SpaceRun(t, 4, 5) && LiteralAt(t, 5, SINGULAR_VERBS[0], false);
    assert VerbAt(t, 5, false);
    assert SpacesThenVerb(t, 4, false);
    assert LiteralAt(t, 0, PRONOUNS[3], false);
    assert MatchesAt(SubjectVerbPhrase, t, 0, false);
    SearchFromComplete(SubjectVerbPhrase, t, 0, 0, false);
    NoSubjectVerb(capitalised, 0, 1, 0, 0);
  }

  /** The article check flags "an" before a vowel as well, which is correct usage. */
  lemma ArticleFlagsAnBeforeVowel(t: string)
    requires t == "an apple"
    ensures Fires(Article, t)
  {
    assert SpaceRun(t, 2, 3) && t[3] in VOWELS;
    assert SpacesThenVowel(t, 2);
    assert LiteralAt(t, 0, ARTICLES[1], false);
    assert MatchesAt(ArticlePhrase, t, 0, false);
    SearchFromComplete(ArticlePhrase, t, 0, 0, false);
  }

  /** No subject–verb match when, for each pronoun, the character at the given
      position is missing from the text. */
  lemma NoSubjectVerb(t: string, iI: nat, iYou: nat, iWe: nat, iThey: nat)
    requires iI < 1 && iYou < 3 && iWe < 2 && iThey < 4
    requires "I"[iI] !in t && "you"[iYou] !in t && "we"[iWe] !in t && "they"[iThey] !in t
    ensures !Fires(SubjectVerb, t)
  {
    MissingCharRulesOutLiteral(t, PRONOUNS[0], false, iI);
    MissingCharRulesOutLiteral(t, PRONOUNS[1], false, iYou);
    MissingCharRulesOutLiteral(t, PRONOUNS[2], false, iWe);
    MissingCharRulesOutLiteral(t, PRONOUNS[3], false, iThey);
    forall k | 0 <= k <= |t| ensures !MatchesAt(SubjectVerbPhrase, t, k, false) {
      forall j | 0 <= j < |PRONOUNS| ensures !LiteralAt(t, k, PRONOUNS[j], false) {
      }
    }
    SearchFromSound(SubjectVerbPhrase, t, 0, false);
  }

  /** No article match in a text without the letter "a". */
  lemma NoArticle(t: string)
    requires 'a' !in t
    ensures !Fires(Article, t)
  {
    MissingCharRulesOutLiteral(t, ARTICLES[0], false, 0);
    MissingCharRulesOutLiteral(t, ARTICLES[1], false, 0);
    forall k | 0 <= k <= |t| ensures !MatchesAt(ArticlePhrase, t, k, false) {
      forall j | 0 <= j < |ARTICLES| ensures !LiteralAt(t, k, ARTICLES[j], false) {
      }
    }
    SearchFromSound(ArticlePhrase, t, 0, false);
  }
}
