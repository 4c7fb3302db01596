/** The regular expressions of the grammar heuristic, each written out as a
    predicate over the text, and `re.search` as a scan over start positions. */
module Patterns {

  /** `\w`: an ASCII letter, digit or underscore. */
  predicate IsWordChar(c: char) {
    ('a' <= c <= 'z') || ('A' <= c <= 'Z') || ('0' <= c <= '9') || c == '_'
  }

  /** `\s` on a Python `str`: exactly the characters for which `str.isspace()` holds. */
  predicate IsSpace(c: char) {
    ('\t' <= c <= '\r') || ('\U{1C}' <= c <= ' ') || c == '\U{85}' || c == '\U{A0}'
    || c == '\U{1680}' || ('\U{2000}' <= c <= '\U{200A}') || c == '\U{2028}' || c == '\U{2029}'
    || c == '\U{202F}' || c == '\U{205F}' || c == '\U{3000}'
  }

  /** Lower-casing of ASCII letters, the folding `re.IGNORECASE` applies to them. */
  function LowerChar(c: char): (d: char)
    ensures IsWordChar(d) == IsWordChar(c)
    ensures !('A' <= d <= 'Z')
  {
    if 'A' <= c <= 'Z' then (c as int + 32) as char else c
  }

  /** The text with every ASCII letter lower-cased. */
  function Lower(s: string): (t: string)
    ensures |t| == |s|
    ensures forall i | 0 <= i < |s| :: t[i] == LowerChar(s[i])
  {
    seq(|s|, i requires 0 <= i < |s| => LowerChar(s[i]))
  }

  /** One character of the pattern against one character of the text. */
  predicate CharMatches(c: char, p: char, ignoreCase: bool) {
    if ignoreCase then LowerChar(c) == LowerChar(p) else c == p
  }

  /** `\b` at position `k`: a word character on exactly one side of `k`. */
  predicate WordBoundary(text: string, k: nat)
    requires k <= |text|
  {
    (0 < k && IsWordChar(text[k - 1])) != (k < |text| && IsWordChar(text[k]))
  }

  /** The literal `w` occurs in `text` starting at `k`. */
  predicate LiteralAt(text: string, k: nat, w: string, ignoreCase: bool)
    requires k <= |text|
  {
    k + |w| <= |text| && forall i | 0 <= i < |w| :: CharMatches(text[k + i], w[i], ignoreCase)
  }

  /** `\s+` covers exactly the positions `m .. n-1`. */
  predicate SpaceRun(text: string, m: nat, n: nat) {
    m < n <= |text| && forall i | m <= i < n :: IsSpace(text[i])
  }

  /** The three shapes of regular expression that the grammar checks use. */
  datatype Pattern =
    | SubjectVerbPhrase                    // \b(I|you|we|they)\s+(is|was)
    | ArticlePhrase                        // \b(a|an)\s+[aeiouAEIOU]
    | WholeWord(alternatives: seq<string>) // \b(w1|w2|...)\b

  /** Alternatives of the subject–verb pattern. */
  const PRONOUNS: seq<string> := ["I", "you", "we", "they"]
  const SINGULAR_VERBS: seq<string> := ["is", "was"]

  /** Alternatives and vowel class of the article pattern. */
  const ARTICLES: seq<string> := ["a", "an"]
  const VOWELS: string := "aeiouAEIOU"

  /** `(is|was)` matches at `n`. */
  predicate VerbAt(text: string, n: nat, ignoreCase: bool)
    requires n <= |text|
  {
    exists j | 0 <= j < |SINGULAR_VERBS| :: LiteralAt(text, n, SINGULAR_VERBS[j], ignoreCase)
  }

  /** `\s+(is|was)` matches from `m`. */
  predicate SpacesThenVerb(text: string, m: nat, ignoreCase: bool)
    requires m <= |text|
  {
    exists n | m < n <= |text| :: SpaceRun(text, m, n) && VerbAt(text, n, ignoreCase)
  }

  /** `\s+[aeiouAEIOU]` matches from `m`; the class holds both cases, so
      `re.IGNORECASE` does not change it. */
  predicate SpacesThenVowel(text: string, m: nat)
    requires m <= |text|
  {
    exists n | m < n < |text| :: SpaceRun(text, m, n) && text[n] in VOWELS
  }

  /** `\b(I|you|we|they)\s+(is|was)` matches at `k`; there is no `\b` after the verb. */
  predicate SubjectVerbAt(text: string, k: nat, ignoreCase: bool)
    requires k <= |text|
  {
    && WordBoundary(text, k)
    && exists j | 0 <= j < |PRONOUNS| ::
         LiteralAt(text, k, PRONOUNS[j], ignoreCase) && SpacesThenVerb(text, k + |PRONOUNS[j]|, ignoreCase)
  }

  /** `\b(a|an)\s+[aeiouAEIOU]` matches at `k`. */
  predicate ArticleAt(text: string, k: nat, ignoreCase: bool)
    requires k <= |text|
  {
    && WordBoundary(text, k)
    && exists j | 0 <= j < |ARTICLES| ::
         LiteralAt(text, k, ARTICLES[j], ignoreCase) && SpacesThenVowel(text, k + |ARTICLES[j]|)
  }

  /** `\b(w)\b` matches at `k`. */
  predicate WordAt(text: string, k: nat, w: string, ignoreCase: bool)
    requires k <= |text|
  {
    LiteralAt(text, k, w, ignoreCase) && WordBoundary(text, k) && WordBoundary(text, k + |w|)
  }

  /** The pattern has a match that starts at `k`. */
  predicate MatchesAt(p: Pattern, text: string, k: nat, ignoreCase: bool)
    requires k <= |text|
  {
    match p
    case SubjectVerbPhrase => SubjectVerbAt(text, k, ignoreCase)
    case ArticlePhrase => ArticleAt(text, k, ignoreCase)
    case WholeWord(words) => exists j | 0 <= j < |words| :: WordAt(text, k, words[j], ignoreCase)
  }

  /** `re.search` from position `k` on: try each start position in turn. */
  predicate SearchFrom(p: Pattern, text: string, k: nat, ignoreCase: bool)
    requires k <= |text|
    decreases |text| - k
  {
    MatchesAt(p, text, k, ignoreCase) || (k < |text| && SearchFrom(p, text, k + 1, ignoreCase))
  }

  /** `re.search(p, text)`, with `re.IGNORECASE` when `ignoreCase`, finds a match. */
  predicate Search(p: Pattern, text: string, ignoreCase: bool) {
    SearchFrom(p, text, 0, ignoreCase)
  }

  /** A scan fails when the pattern matches at none of the positions it visits. */
  lemma {:induction false} SearchFromSound(p: Pattern, text: string, k0: nat, ignoreCase: bool)
    requires k0 <= |text|
    requires forall k | k0 <= k <= |text| :: !MatchesAt(p, text, k, ignoreCase)
    ensures !SearchFrom(p, text, k0, ignoreCase)
    decreases |text| - k0
  {
    if k0 < |text| {
      SearchFromSound(p, text, k0 + 1, ignoreCase);
    }
  }

  /** A scan started at or before a matching position succeeds. */
  lemma {:induction false} SearchFromComplete(p: Pattern, text: string, k0: nat, k: nat, ignoreCase: bool)
    requires k0 <= k <= |text| && MatchesAt(p, text, k, ignoreCase)
    ensures SearchFrom(p, text, k0, ignoreCase)
    decreases k - k0
  {
    if k0 < k {
      SearchFromComplete(p, text, k0 + 1, k, ignoreCase);
    }
  }

  /** A literal occurs nowhere in a text that lacks one of its characters: the
      way to show that a pattern does not match a given text. */
  lemma {:induction false} MissingCharRulesOutLiteral(text: string, w: string, ignoreCase: bool, i: nat)
    requires i < |w|
    requires forall c | c in text :: !CharMatches(c, w[i], ignoreCase)
    ensures forall k | 0 <= k <= |text| :: !LiteralAt(text, k, w, ignoreCase)
  {
    forall k | 0 <= k <= |text| ensures !LiteralAt(text, k, w, ignoreCase) {
      if k + |w| <= |text| {
        assert text[k + i] in text;
      }
    }
  }

  /** Under `re.IGNORECASE` a whole-word pattern cannot tell, at any position, a
      text from its lower-cased form. */
  lemma WordMatchIgnoresCase(words: seq<string>, text: string, k: nat)
    requires k <= |text|
    ensures MatchesAt(WholeWord(words), Lower(text), k, true) == MatchesAt(WholeWord(words), text, k, true)
  {
    var low := Lower(text);
    forall j | 0 <= j < |words|
      ensures WordAt(low, k, words[j], true) == WordAt(text, k, words[j], true)
    {
      var w := words[j];
      assert WordBoundary(low, k) == WordBoundary(text, k);
      if k + |w| <= |text| {
        assert WordBoundary(low, k + |w|) == WordBoundary(text, k + |w|);
        assert forall i | 0 <= i < |w| ::
          CharMatches(low[k + i], w[i], true) == CharMatches(text[k + i], w[i], true);
      }
    }
  }

  /** Under `re.IGNORECASE` the search for a whole-word pattern gives the same
      answer on a text and on its lower-cased form. */
  lemma {:induction false} SearchIgnoresCase(words: seq<string>, text: string, k0: nat)
    requires k0 <= |text|
    ensures SearchFrom(WholeWord(words), Lower(text), k0, true) == SearchFrom(WholeWord(words), text, k0, true)
    decreases |text| - k0
  {
    WordMatchIgnoresCase(words, text, k0);
    if k0 < |text| {
      SearchIgnoresCase(words, text, k0 + 1);
    }
  }
}
