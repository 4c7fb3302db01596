/** The heuristic text scorer: three independent reports computed from the
    word tokens and sentences of a text. The word and sentence tokenisers are
    outside the model, so each report takes the token sequences it is computed
    from. */
module Assessment {
  import opened Patterns

  // ---------------------------------------------------------------------------
  // assess_pronunciation
  // ---------------------------------------------------------------------------

  /** Scores that are fixed stand-ins, not computed from the text. */
  const PLACEHOLDER_PRONUNCIATION_SCORE: nat := 85
  const PLACEHOLDER_FLUENCY_SCORE: nat := 78
  const PLACEHOLDER_CLARITY_SCORE: nat := 92

  datatype PronunciationReport = PronunciationReport(
    wordCount: nat,
    sentenceCount: nat,
    avgWordLength: real,
    complexityScore: nat,
    pronunciationScore: nat,
    fluencyScore: nat,
    clarityScore: nat)

  /** Total number of characters over all tokens. */
  function TotalLength(words: seq<string>): nat {
    if words == [] then 0 else |words[0]| + TotalLength(words[1..])
  }

  /** Mean token length; 0 when there are no tokens. */
  function AverageTokenLength(words: seq<string>): (avg: real)
    ensures 0.0 <= avg
    ensures |words| == 0 ==> avg == 0.0
    ensures avg * (|words| as real) == TotalLength(words) as real
  {
    if |words| > 0 then TotalLength(words) as real / |words| as real else 0.0
  }

  /** The linear complexity heuristic, capped at 100. */
  function ComplexityScore(wordCount: nat, sentenceCount: nat): (c: nat)
    ensures c <= 100
    ensures c <= 2 * wordCount + 5 * sentenceCount
    ensures c == 100 || c == 2 * wordCount + 5 * sentenceCount
  {
    if 2 * wordCount + 5 * sentenceCount < 100 then 2 * wordCount + 5 * sentenceCount else 100
  }

  /** `assess_pronunciation`, given the word tokens and the sentences of the text. */
  function AssessPronunciation(words: seq<string>, sentences: seq<string>): (r: PronunciationReport)
    ensures r.wordCount == |words| && r.sentenceCount == |sentences|
    ensures r.complexityScore <= 100 && r.complexityScore <= 2 * |words| + 5 * |sentences|
    ensures r.complexityScore == 100 || r.complexityScore == 2 * |words| + 5 * |sentences|
    ensures r.complexityScore == 0 <==> words == [] && sentences == []
    ensures r.avgWordLength * (r.wordCount as real) == TotalLength(words) as real
    ensures words == [] ==> r.avgWordLength == 0.0
    ensures r.pronunciationScore == 85 && r.fluencyScore == 78 && r.clarityScore == 92
  {
    PronunciationReport(
      |words|,
      |sentences|,
      AverageTokenLength(words),
      ComplexityScore(|words|, |sentences|),
      PLACEHOLDER_PRONUNCIATION_SCORE,
      PLACEHOLDER_FLUENCY_SCORE,
      PLACEHOLDER_CLARITY_SCORE)
  }

  /** More tokens or more sentences never lower the complexity score. */
  lemma ComplexityMonotone(w1: nat, s1: nat, w2: nat, s2: nat)
    requires w1 <= w2 && s1 <= s2
    ensures ComplexityScore(w1, s1) <= ComplexityScore(w2, s2)
  {
  }

  /** The total length lies between `|words|` times a lower and an upper bound on the token lengths. */
  lemma {:induction false} TotalLengthBounds(words: seq<string>, lo: nat, hi: nat)
    requires forall i | 0 <= i < |words| :: lo <= |words[i]| <= hi
    ensures (|words| as real) * (lo as real) <= TotalLength(words) as real <= (|words| as real) * (hi as real)
  {
    if words != [] {
      var rest := words[1..];
      TotalLengthBounds(rest, lo, hi);
      assert TotalLength(words) == |words[0]| + TotalLength(rest);
      var n, m, l, h := |words| as real, |rest| as real, lo as real, hi as real;
      assert n == m + 1.0;
      assert n * l == m * l + l && n * h == m * h + h;
      assert l <= |words[0]| as real <= h;
    }
  }

  /** The average token length lies between the shortest and the longest token. */
  lemma AverageWithinTokenLengths(words: seq<string>, sentences: seq<string>, lo: nat, hi: nat)
    requires words != []
    requires forall i | 0 <= i < |words| :: lo <= |words[i]| <= hi
    ensures lo as real <= AssessPronunciation(words, sentences).avgWordLength <= hi as real
  {
    TotalLengthBounds(words, lo, hi);
    QuotientBounds(TotalLength(words) as real, |words| as real, lo as real, hi as real);
  }

  /** If `n * lo <= t <= n * hi` with `n` positive, then `t / n` lies in `[lo, hi]`. */
  lemma QuotientBounds(t: real, n: real, lo: real, hi: real)
    requires n > 0.0 && n * lo <= t <= n * hi
    ensures lo <= t / n <= hi
  {
    assert (t / n) * n == t;
  }

  // ---------------------------------------------------------------------------
  // assess_vocabulary
  // ---------------------------------------------------------------------------

  /** The fixed set of common English words that never count as uncommon. */
  const COMMON_WORDS: set<string> := {
    "the", "be", "to", "of", "and", "a", "in", "that", "have", "i",
    "it", "for", "not", "on", "with", "he", "as", "you", "do", "at"
  }

  datatype VocabularyReport = VocabularyReport(
    totalWords: nat,
    uniqueWords: nat,
    uncommonWords: nat,
    vocabularyScore: real)

  /** An ASCII letter. */
  predicate IsLetter(c: char) {
    ('a' <= c <= 'z') || ('A' <= c <= 'Z')
  }

  /** `str.isalpha()`: non-empty and made of letters only. */
  predicate IsAlpha(w: string) {
    |w| > 0 && forall i | 0 <= i < |w| :: IsLetter(w[i])
  }

  /** No token occurs twice. */
  predicate Distinct(words: seq<string>) {
    forall i, j | 0 <= i < j < |words| :: words[i] != words[j]
  }

  /** `set(words)`. */
  function UniqueWords(words: seq<string>): set<string> {
    set w | w in words
  }

  /** The distinct alphabetic tokens that are not common words. */
  function UncommonWords(words: seq<string>): (u: set<string>)
    ensures u <= UniqueWords(words)
    ensures forall w | w in u :: IsAlpha(w) && w !in COMMON_WORDS
    ensures forall w | w in words && IsAlpha(w) && w !in COMMON_WORDS :: w in u
  {
    set w | w in UniqueWords(words) && w !in COMMON_WORDS && IsAlpha(w)
  }

  /** The ratio heuristic: 200 times the share of distinct uncommon words among
      all tokens, capped at 100, and 0 when there are no tokens. */
  function VocabularyScore(uncommonCount: nat, totalWords: nat): (s: real)
    ensures 0.0 <= s <= 100.0
    ensures s == 0.0 <==> totalWords == 0 || uncommonCount == 0
    ensures totalWords > 0 ==> (s == 100.0 <==> 2 * uncommonCount >= totalWords)
    ensures totalWords > 0 && 2 * uncommonCount < totalWords ==>
              s * (totalWords as real) == 200.0 * uncommonCount as real
  {
    if totalWords > 0 then
      var ratio := (uncommonCount as real / totalWords as real) * 200.0;
      if ratio < 100.0 then ratio else 100.0
    else
      0.0
  }

  /** `assess_vocabulary`, given the word tokens of the lower-cased text. */
  function AssessVocabulary(words: seq<string>): (r: VocabularyReport)
    ensures r.totalWords == |words|
    ensures r.uniqueWords == |UniqueWords(words)|
    ensures r.uncommonWords == |UncommonWords(words)|
    ensures r.uncommonWords <= r.uniqueWords <= r.totalWords
    ensures r.uniqueWords == r.totalWords <==> Distinct(words)
    ensures r.vocabularyScore == VocabularyScore(r.uncommonWords, r.totalWords)
    ensures 0.0 <= r.vocabularyScore <= 100.0
    ensures words == [] ==> r == VocabularyReport(0, 0, 0, 0.0)
  {
    UniqueCount(words);
    UncommonAtMostUnique(words);
    var total := |words|;
    var uncommon := |UncommonWords(words)|;
    VocabularyReport(total, |UniqueWords(words)|, uncommon, VocabularyScore(uncommon, total))
  }

  /** There are at most as many distinct tokens as tokens, and exactly as many
      precisely when no token repeats. */
  lemma {:induction false} UniqueCount(words: seq<string>)
    ensures |UniqueWords(words)| <= |words|
    ensures |UniqueWords(words)| == |words| <==> Distinct(words)
  {
    if words != [] {
      var rest := words[1..];
      UniqueCount(rest);
      assert UniqueWords(words) == {words[0]} + UniqueWords(rest) by {
        forall w ensures w in UniqueWords(words) <==> w in {words[0]} + UniqueWords(rest) {
          if w in words && w != words[0] {
            var i :| 0 <= i < |words| && words[i] == w;
            assert rest[i - 1] == w;
          }
        }
      }
      if words[0] in rest {
        var j :| 0 <= j < |rest| && rest[j] == words[0];
        assert words[j + 1] == words[0];
        assert !Distinct(words);
      } else {
        assert Distinct(words) <==> Distinct(rest) by {
          if Distinct(rest) {
            forall i, j | 0 <= i < j < |words| ensures words[i] != words[j] {
              if i == 0 {
                assert words[j] == rest[j - 1];
              } else {
                assert words[i] == rest[i - 1] && words[j] == rest[j - 1];
              }
            }
          }
          if Distinct(words) {
            forall i, j | 0 <= i < j < |rest| ensures rest[i] != rest[j] {
              assert rest[i] == words[i + 1] && rest[j] == words[j + 1];
            }
          }
        }
      }
    }
  }

  /** Every uncommon word is one of the distinct tokens. */
  lemma UncommonAtMostUnique(words: seq<string>)
    ensures |UncommonWords(words)| <= |UniqueWords(words)|
  {
    var u, all := UncommonWords(words), UniqueWords(words);
    assert all == u + (all - u);
  }

  /** More distinct uncommon words never lower the score for the same token count. */
  lemma VocabularyScoreMonotone(u1: nat, u2: nat, total: nat)
    requires u1 <= u2
    ensures VocabularyScore(u1, total) <= VocabularyScore(u2, total)
  {
    if total > 0 {
      var t := total as real;
      assert (u1 as real / t) <= (u2 as real / t);
    }
  }

  /** More tokens with the same distinct uncommon words never raise the score. */
  lemma VocabularyScoreDiluted(uncommon: nat, t1: nat, t2: nat)
    requires 0 < t1 <= t2
    ensures VocabularyScore(uncommon, t2) <= VocabularyScore(uncommon, t1)
  {
    var u, a, b := uncommon as real, t1 as real, t2 as real;
    assert u / b <= u / a by {
      assert (u / b) * b == u && (u / a) * a == u;
      assert (u / a) * b >= (u / a) * a;
    }
  }

  /** Appending a new alphabetic, uncommon word adds one uncommon word. */
  lemma {:induction false} NewUncommonWordCounts(words: seq<string>, w: string)
    requires w !in words && IsAlpha(w) && w !in COMMON_WORDS
    ensures UncommonWords(words + [w]) == UncommonWords(words) + {w}
    ensures |UncommonWords(words + [w])| == |UncommonWords(words)| + 1
  {
    var ext := words + [w];
    forall x: string ensures x in UncommonWords(ext) <==> x in UncommonWords(words) + {w}
    {
      if x in ext && x != w {
        var i :| 0 <= i < |ext| && ext[i] == x;
        assert words[i] == x;
      }
      if x in words {
        var i :| 0 <= i < |words| && words[i] == x;
        assert ext[i] == x;
      }
      if x == w {
        assert ext[|words|] == w;
      }
    }
  }

  // ---------------------------------------------------------------------------
  // assess_grammar
  // ---------------------------------------------------------------------------

  /** The six pattern checks, named after the error they report. */
  datatype Check = SubjectVerb | Article | LowercaseI | Contraction | TheirThere | YourYoure

  /** The order in which the checks run. */
  const CHECK_ORDER: seq<Check> := [SubjectVerb, Article, LowercaseI, Contraction, TheirThere, YourYoure]

  /** The `common_mistakes` table: the four checks run in a loop, after the two inline ones. */
  const COMMON_MISTAKES: seq<Check> := [LowercaseI, Contraction, TheirThere, YourYoure]

  /** Position of a check in `CHECK_ORDER`. */
  function Rank(c: Check): (n: nat)
    ensures n < |CHECK_ORDER| && CHECK_ORDER[n] == c
  {
    match c
    case SubjectVerb => 0
    case Article => 1
    case LowercaseI => 2
    case Contraction => 3
    case TheirThere => 4
    case YourYoure => 5
  }

  /** The message each check reports. */
  function Message(c: Check): string {
    match c
    case SubjectVerb => "Subject-verb agreement error"
    case Article => "Article usage error"
    case LowercaseI => "Use \"I\" instead of \"i\""
    case Contraction => "Use contractions properly: don't, can't, won't"
    case TheirThere => "Check usage of their/there/they're"
    case YourYoure => "Check usage of your/you're"
  }

  /** Distinct checks report distinct messages. */
  lemma MessageInjective(c: Check, d: Check)
    requires Message(c) == Message(d)
    ensures c == d
  {
  }

  /** The pattern each check searches for. */
  function PatternOf(c: Check): Pattern {
    match c
    case SubjectVerb => SubjectVerbPhrase
    case Article => ArticlePhrase
    case LowercaseI => WholeWord(["i"])
    case Contraction => WholeWord(["dont", "cant", "wont"])
    case TheirThere => WholeWord(["their", "there", "they're"])
    case YourYoure => WholeWord(["your", "you're"])
  }

  /** The two inline checks are case-sensitive; the table checks run with `re.IGNORECASE`. */
  predicate IgnoresCase(c: Check) {
    !(c == SubjectVerb || c == Article)
  }

  /** Whether the check's pattern matches the text. */
  predicate Fires(c: Check, text: string) {
    Search(PatternOf(c), text, IgnoresCase(c))
  }

  /** Reference definition: the checks among the first `n` that fire, in check order. */
  function FiringUpTo(text: string, n: nat): seq<Check>
    requires n <= |CHECK_ORDER|
  {
    if n == 0 then []
    else
      var c := CHECK_ORDER[n - 1];
      FiringUpTo(text, n - 1) + (if Fires(c, text) then [c] else [])
  }

  /** The message of each check, in the same order. */
  function Messages(checks: seq<Check>): (ms: seq<string>)
    ensures |ms| == |checks|
    ensures forall i | 0 <= i < |checks| :: ms[i] == Message(checks[i])
  {
    seq(|checks|, i requires 0 <= i < |checks| => Message(checks[i]))
  }

  /** Listing one more check lists its message at the end. */
  lemma MessagesSnoc(checks: seq<Check>, c: Check)
    ensures Messages(checks + [c]) == Messages(checks) + [Message(c)]
  {
  }

  /** The table entries are the checks that follow the two inline ones. */
  lemma CommonMistakesFollowInlineChecks()
    ensures |COMMON_MISTAKES| == |CHECK_ORDER| - 2
    ensures forall i | 0 <= i < |COMMON_MISTAKES| ::
              COMMON_MISTAKES[i] == CHECK_ORDER[2 + i] && Rank(COMMON_MISTAKES[i]) == 2 + i
  {
  }

  /** The messages `assess_grammar` reports for `text`. */
  function Flagged(text: string): seq<string> {
    Messages(FiringUpTo(text, |CHECK_ORDER|))
  }

  /** A check is listed among the first `n` exactly when it is one of the
      first `n` checks and its pattern matches. */
  lemma {:induction false} FiringUpToMembers(text: string, n: nat)
    requires n <= |CHECK_ORDER|
    ensures forall c :: c in FiringUpTo(text, n) <==> Rank(c) < n && Fires(c, text)
  {
    if n > 0 {
      FiringUpToMembers(text, n - 1);
      var c := CHECK_ORDER[n - 1];
      assert FiringUpTo(text, n) == FiringUpTo(text, n - 1) + (if Fires(c, text) then [c] else []);
    }
  }

  /** The checks listed among the first `n` are at most `n`, each of rank below
      `n`, in strictly increasing check order. */
  lemma {:induction false} FiringUpToOrdered(text: string, n: nat)
    requires n <= |CHECK_ORDER|
    ensures |FiringUpTo(text, n)| <= n
    ensures forall a | 0 <= a < |FiringUpTo(text, n)| :: Rank(FiringUpTo(text, n)[a]) < n
    ensures forall a, b | 0 <= a < b < |FiringUpTo(text, n)| ::
              Rank(FiringUpTo(text, n)[a]) < Rank(FiringUpTo(text, n)[b])
  {
    if n > 0 {
      FiringUpToOrdered(text, n - 1);
      var c := CHECK_ORDER[n - 1];
      var prev := FiringUpTo(text, n - 1);
      var cur := prev + (if Fires(c, text) then [c] else []);
      assert FiringUpTo(text, n) == cur;
      forall a | 0 <= a < |cur| ensures Rank(cur[a]) < n {
        if a < |prev| {
          assert cur[a] == prev[a];
        }
      }
      forall a, b | 0 <= a < b < |cur| ensures Rank(cur[a]) < Rank(cur[b]) {
        assert cur[a] == prev[a];
        if b < |prev| {
          assert cur[b] == prev[b];
        }
      }
    }
  }

  /** A message is listed exactly when the check reporting it is. */
  lemma MessageListed(checks: seq<Check>, c: Check)
    ensures Message(c) in Messages(checks) <==> c in checks
  {
    if Message(c) in Messages(checks) {
      var i :| 0 <= i < |checks| && Messages(checks)[i] == Message(c);
      MessageInjective(c, checks[i]);
    }
  }

  /** A check's message is reported exactly when its pattern matches. */
  lemma FlaggedIffFires(text: string, c: Check)
    ensures Message(c) in Flagged(text) <==> Fires(c, text)
  {
    FiringUpToMembers(text, |CHECK_ORDER|);
    MessageListed(FiringUpTo(text, |CHECK_ORDER|), c);
  }

  /** At most six messages are reported, in check order, and none twice. */
  lemma FlaggedOrderedAndDistinct(text: string)
    ensures |Flagged(text)| <= 6
    ensures forall a, b | 0 <= a < b < |Flagged(text)| ::
              Rank(FiringUpTo(text, |CHECK_ORDER|)[a]) < Rank(FiringUpTo(text, |CHECK_ORDER|)[b])
    ensures forall a, b | 0 <= a < b < |Flagged(text)| :: Flagged(text)[a] != Flagged(text)[b]
  {
    var checks := FiringUpTo(text, |CHECK_ORDER|);
    FiringUpToOrdered(text, |CHECK_ORDER|);
    forall a, b | 0 <= a < b < |checks| ensures Flagged(text)[a] != Flagged(text)[b] {
      if Flagged(text)[a] == Flagged(text)[b] {
        MessageInjective(checks[a], checks[b]);
      }
    }
  }

  /** No pattern matches the empty text, so nothing is reported for it. */
  lemma EmptyTextFlagsNothing(text: string)
    requires |text| == 0
    ensures Flagged(text) == []
  {
    forall c ensures !Fires(c, text) {
      SearchFromSound(PatternOf(c), text, 0, IgnoresCase(c));
    }
    NothingFiresNothingListed(text, |CHECK_ORDER|);
  }

  /** When no pattern matches, none of the first `n` checks is listed. */
  lemma {:induction false} NothingFiresNothingListed(text: string, n: nat)
    requires n <= |CHECK_ORDER|
    requires forall c :: !Fires(c, text)
    ensures FiringUpTo(text, n) == []
  {
    if n > 0 {
      NothingFiresNothingListed(text, n - 1);
    }
  }

  datatype GrammarReport = GrammarReport(
    errorCount: nat,
    errors: seq<string>,
    sentenceCount: nat,
    grammarScore: int)

  /** 20 points off per error, floored at 0; 100 when the text has no sentences. */
  function GrammarScore(errorCount: nat, sentenceCount: nat): (g: int)
    ensures 0 <= g <= 100 && g % 20 == 0
    ensures sentenceCount == 0 ==> g == 100
    ensures sentenceCount > 0 ==> (g == 100 <==> errorCount == 0)
    ensures sentenceCount > 0 ==> (g == 0 <==> errorCount >= 5)
    ensures sentenceCount > 0 && errorCount < 5 ==> g + 20 * errorCount == 100
  {
    if sentenceCount > 0 then
      var raw := 100 - errorCount * 20;
      if raw < 0 then 0 else raw
    else
      100
  }

  /** More errors never raise the grammar score. */
  lemma GrammarScoreAntitone(e1: nat, e2: nat, sentenceCount: nat)
    requires e1 <= e2
    ensures GrammarScore(e2, sentenceCount) <= GrammarScore(e1, sentenceCount)
  {
  }

  /** One pass of the table loop: entry `i` is searched with `re.IGNORECASE`, its
      message is not yet listed when it is reached, and appending it when its
      pattern matches extends the list to the first `3 + i` checks. So the
      `not in errors` test never skips a message. */
  lemma TableStep(text: string, i: nat)
    requires i < |COMMON_MISTAKES|
    ensures Fires(COMMON_MISTAKES[i], text) == Search(PatternOf(COMMON_MISTAKES[i]), text, true)
    ensures Message(COMMON_MISTAKES[i]) !in Messages(FiringUpTo(text, 2 + i))
    ensures Messages(FiringUpTo(text, 3 + i)) ==
              Messages(FiringUpTo(text, 2 + i))
              + (if Fires(COMMON_MISTAKES[i], text) then [Message(COMMON_MISTAKES[i])] else [])
  {
    CommonMistakesFollowInlineChecks();
    var c := COMMON_MISTAKES[i];
    assert FiringUpTo(text, 3 + i) == FiringUpTo(text, 2 + i) + (if Fires(c, text) then [c] else []);
    FiringUpToMembers(text, 2 + i);
    MessageListed(FiringUpTo(text, 2 + i), c);
    MessagesSnoc(FiringUpTo(text, 2 + i), c);
  }

  /** The two checks `assess_grammar` runs inline, before its table: each appends
      its message when its pattern matches. */
  method InlineChecks(text: string) returns (errors: seq<string>)
    ensures errors == Messages(FiringUpTo(text, 2))
  {
    errors := [];
    if Search(SubjectVerbPhrase, text, false) {
      errors := errors + [Message(SubjectVerb)];
    }
    MessagesSnoc([], SubjectVerb);
    assert errors == Messages(FiringUpTo(text, 1));
    if Search(ArticlePhrase, text, false) {
      errors := errors + [Message(Article)];
    }
    MessagesSnoc(FiringUpTo(text, 1), Article);
  }

  /** `assess_grammar`, given the text and its sentences: runs the inline checks,
      then the table checks, skipping a table message already listed. */
  method AssessGrammar(text: string, sentences: seq<string>) returns (r: GrammarReport)
    ensures r.errors == Flagged(text)
    ensures r.errorCount == |r.errors| <= 6
    ensures forall a, b | 0 <= a < b < |r.errors| :: r.errors[a] != r.errors[b]
    ensures r.sentenceCount == |sentences|
    ensures r.grammarScore == GrammarScore(r.errorCount, r.sentenceCount)
    ensures sentences == [] ==> r.grammarScore == 100
    ensures |text| == 0 ==> r.errors == [] && r.errorCount == 0
  {
    var errors := InlineChecks(text);
    for i := 0 to |COMMON_MISTAKES|
      invariant errors == Messages(FiringUpTo(text, 2 + i))
    {
      TableStep(text, i);
      var c := COMMON_MISTAKES[i];
      if Search(PatternOf(c), text, true) {
        if Message(c) !in errors {
          errors := errors + [Message(c)];
        }
      }
    }
    var errorCount := |errors|;
    var sentenceCount := |sentences|;
    FlaggedOrderedAndDistinct(text);
    if |text| == 0 {
      EmptyTextFlagsNothing(text);
    }
    r := GrammarReport(errorCount, errors, sentenceCount, GrammarScore(errorCount, sentenceCount));
  }
}
