/** Filler-word counting of the transcription endpoint: the transcript is
    lower-cased and, for each of seven lexicon entries, the matches of the
    regular expression `\b<word>\b` (flags `gi`) are counted and summed. */
module FillerWords {

  const Lexicon: seq<string> := ["um", "uh", "like", "you know", "so", "actually", "basically"]

  /** The word characters of `\b`: `[A-Za-z0-9_]`. */
  predicate IsWordChar(c: char) {
    ('A' <= c <= 'Z') || ('a' <= c <= 'z') || ('0' <= c <= '9') || c == '_'
  }

  function LowerChar(c: char): (d: char)
    ensures 'A' <= c <= 'Z' ==> 'a' <= d <= 'z' && d as int == c as int + 32
    ensures !('A' <= c <= 'Z') ==> d == c
  {
    if 'A' <= c <= 'Z' then (c as int + 32) as char else c
  }

  /** `toLowerCase`, on the ASCII letters. */
  function ToLower(s: string): (r: string)
    ensures |r| == |s|
    ensures forall i :: 0 <= i < |s| ==> r[i] == LowerChar(s[i])
  {
    seq(|s|, i requires 0 <= i < |s| => LowerChar(s[i]))
  }

  /** `\b` at position p: the characters on either side differ in being
      word characters (the ends of the text count as non-word). */
  predicate IsBoundary(s: string, p: nat)
    requires p <= |s|
  {
    (p > 0 && IsWordChar(s[p - 1])) != (p < |s| && IsWordChar(s[p]))
  }

  /** `\b<w>\b` matches at position i. */
  predicate MatchAt(s: string, w: string, i: nat)
    ensures MatchAt(s, w, i) && 0 < |w| && 0 < i <= |s| && IsWordChar(w[0]) ==> !IsWordChar(s[i - 1])
    ensures MatchAt(s, w, i) && 0 < |w| && i + |w| < |s| && IsWordChar(w[|w| - 1]) ==> !IsWordChar(s[i + |w|])
  {
    i + |w| <= |s| && s[i..i + |w|] == w && IsBoundary(s, i) && IsBoundary(s, i + |w|)
  }

  /** The global scan of `s.match(regex)` from position i: a match is
      counted and the scan resumes after it; otherwise it moves on by one. */
  function CountFrom(s: string, w: string, i: nat): nat
    requires |w| > 0
    decreases |s| - i
  {
    if i + |w| > |s| then 0
    else if MatchAt(s, w, i) then 1 + CountFrom(s, w, i + |w|)
    else CountFrom(s, w, i + 1)
  }

  /** `matches ? matches.length : 0`. */
  function Occurrences(s: string, w: string): (n: nat)
    requires |w| > 0
    ensures n * |w| <= |s|
  {
    OccurrencesBound(s, w, 0);
    CountFrom(s, w, 0)
  }

  /** Sum of the occurrences of each word of `words`. */
  function SumOver(s: string, words: seq<string>): nat
    requires forall j :: 0 <= j < |words| ==> |words[j]| > 0
  {
    if words == [] then 0
    else SumOver(s, words[..|words| - 1]) + Occurrences(s, words[|words| - 1])
  }

  /** The specification of `fillerWordCount`. */
  function FillerCount(text: string): (n: nat)
    ensures 2 * n <= |Lexicon| * |text|
  {
    SumOverBound(ToLower(text), Lexicon);
    SumOver(ToLower(text), Lexicon)
  }

  /** Each word of at least two characters matches at most once per two
      characters of the text. */
  lemma {:induction false} SumOverBound(s: string, words: seq<string>)
    requires forall j :: 0 <= j < |words| ==> |words[j]| >= 2
    ensures 2 * SumOver(s, words) <= |words| * |s|
  {
    if words != [] {
      var prefix, w := words[..|words| - 1], words[|words| - 1];
      SumOverBound(s, prefix);
      var occ := Occurrences(s, w);
      MulMonotone(occ, 2, |w|);
      MatchStep(|prefix|, |s|);
    }
  }

  lemma MulMonotone(a: nat, b: nat, c: nat)
    requires b <= c
    ensures a * b <= a * c
  {
  }

  /** The `forEach` over the lexicon. */
  method CountFillerWords(text: string) returns (fillerWordCount: nat)
    ensures fillerWordCount == FillerCount(text)
  {
    var transcriptText := ToLower(text);
    fillerWordCount := 0;
    for k := 0 to |Lexicon|
      invariant fillerWordCount == SumOver(transcriptText, Lexicon[..k])
    {
      var word := Lexicon[k];
      assert Lexicon[..k + 1][..k] == Lexicon[..k];
      fillerWordCount := fillerWordCount + Occurrences(transcriptText, word);
    }
    assert Lexicon[..|Lexicon|] == Lexicon;
  }

  /** Matches never overlap, so a word of length n occurs at most |s|/n times. */
  lemma {:induction false} OccurrencesBound(s: string, w: string, i: nat)
    requires |w| > 0 && i <= |s|
    ensures CountFrom(s, w, i) * |w| <= |s| - i
    decreases |s| - i
  {
    if i + |w| <= |s| {
      if MatchAt(s, w, i) {
        var rest := CountFrom(s, w, i + |w|);
        OccurrencesBound(s, w, i + |w|);
        assert CountFrom(s, w, i) == 1 + rest;
        MatchStep(rest, |w|);
      } else {
        OccurrencesBound(s, w, i + 1);
        assert CountFrom(s, w, i) == CountFrom(s, w, i + 1);
      }
    }
  }

  lemma MatchStep(rest: nat, n: nat)
    ensures (1 + rest) * n == n + rest * n
  {
  }

  /** Lower-casing twice is lower-casing once. */
  lemma ToLowerIdempotent(s: string)
    ensures ToLower(ToLower(s)) == ToLower(s)
  {
    var once := ToLower(s);
    assert forall i :: 0 <= i < |s| ==> LowerChar(once[i]) == once[i];
  }

  /** Case does not matter: a text and its lower-case form have the same count. */
  lemma CaseInsensitive(text: string)
    ensures FillerCount(ToLower(text)) == FillerCount(text)
  {
    ToLowerIdempotent(text);
  }

  /** A word that starts and ends with a word character, alone, is
      matched exactly once. */
  lemma SelfMatch(w: string)
    requires |w| > 0 && IsWordChar(w[0]) && IsWordChar(w[|w| - 1])
    ensures Occurrences(w, w) == 1
  {
    assert w[0..|w|] == w;
    assert MatchAt(w, w, 0);
    assert CountFrom(w, w, |w|) == 0;
  }

  /** Each word of the lexicon alone is one filler word. */
  lemma WholeWordCounts()
    ensures forall w :: w in Lexicon ==> Occurrences(w, w) == 1
  {
    forall w | w in Lexicon
      ensures Occurrences(w, w) == 1
    {
      SelfMatch(w);
    }
  }

  /** Inside a longer word a lexicon entry is not counted: "like" does
      not occur in "unlike". */
  lemma {:induction false} EmbeddedWordNotCounted()
    ensures Occurrences("unlike", "like") == 0
  {
    var s := "unlike";
    assert !MatchAt(s, "like", 0) by { assert s[0..4] != "like" by { assert s[0] == 'u'; } }
    assert !MatchAt(s, "like", 1) by { assert s[1..5] != "like" by { assert s[1] == 'n'; } }
    assert !MatchAt(s, "like", 2) by { assert !IsBoundary(s, 2); }
  }

  /** Positions where nothing matches are skipped by the scan. */
  lemma {:induction false} SkipNonMatches(s: string, w: string, i: nat, j: nat)
    requires |w| > 0 && i <= j
    requires forall p :: i <= p < j ==> !MatchAt(s, w, p)
    ensures CountFrom(s, w, i) == CountFrom(s, w, j)
    decreases j - i
  {
    if i < j && i + |w| <= |s| {
      SkipNonMatches(s, w, i + 1, j);
    } else if i < j {
      assert CountFrom(s, w, j) == 0;
    }
  }

  lemma LowerSentence()
    ensures ToLower("I like pizza, unlike you") == "i like pizza, unlike you"
  {
    var t := ToLower("I like pizza, unlike you");
    assert t[0] == 'i';
    forall i | 1 <= i < 24 ensures t[i] == "i like pizza, unlike you"[i] { }
  }

  lemma NoLikeAt(s: string, p: nat)
    requires s == "i like pizza, unlike you"
    requires p < 2 || 6 <= p < 21
    ensures !MatchAt(s, "like", p)
  {
    if p == 16 {
      assert !IsBoundary(s, 16) by { assert s[15] == 'n' && s[16] == 'l'; }
    } else {
      assert s[p] != 'l';
      assert p + 4 <= |s| ==> s[p..p + 4][0] == s[p];
    }
  }

  lemma LikeAtTwo(s: string)
    requires s == "i like pizza, unlike you"
    ensures MatchAt(s, "like", 2)
  {
    assert s[1] == ' ';
    assert s[2] == 'l';
    assert s[3] == 'i';
    assert s[4] == 'k';
    assert s[5] == 'e';
    assert s[6] == ' ';
    assert s[2..6] == "like";
  }

  lemma {:induction false} LikeCountInLowerSentence(s: string)
    requires s == "i like pizza, unlike you"
    ensures Occurrences(s, "like") == 1
  {
    var w := "like";
    forall p | 0 <= p < 2 ensures !MatchAt(s, w, p) { NoLikeAt(s, p); }
    SkipNonMatches(s, w, 0, 2);
    LikeAtTwo(s);
    assert CountFrom(s, w, 2) == 1 + CountFrom(s, w, 6);
    forall p | 6 <= p < 21 ensures !MatchAt(s, w, p) { NoLikeAt(s, p); }
    SkipNonMatches(s, w, 6, 21);
    assert CountFrom(s, w, 21) == 0;
  }

  /** The sentence "I like pizza, unlike you" holds exactly one "like":
      the one inside "unlike" is not counted. */
  lemma LikeCountedOnceInSentence()
    ensures Occurrences(ToLower("I like pizza, unlike you"), "like") == 1
  {
    LowerSentence();
    LikeCountInLowerSentence("i like pizza, unlike you");
  }
}
