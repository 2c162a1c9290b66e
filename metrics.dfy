/** The deterministic speech metrics of the analysis endpoint: word count,
    speech rate in words per minute, and a fluency score that loses up to
    50 points for filler-word density and 0.2 points per word-per-minute
    away from an ideal pace of 150, clamped to [0, 100]. The source works
    in doubles; the model uses exact reals. */
module Metrics {
  import opened Words

  const IdealRate: int := 150

  /** `Math.round`: the nearest integer, halves rounded up. */
  function Round(x: real): (r: int)
    ensures r as real - 0.5 <= x < r as real + 0.5
  {
    (x + 0.5).Floor
  }

  /** `transcript.trim().split(/\s+/).length`. */
  function WordCount(transcript: string): (n: nat)
    ensures n >= 1
  {
    |Split(Trim(transcript))|
  }

  /** `Math.round((wordCount / duration) * 60)`. */
  function SpeechRate(wordCount: nat, duration: real): (r: int)
    requires duration > 0.0
    ensures r >= 0
    ensures r as real - 0.5 <= wordCount as real / duration * 60.0 < r as real + 0.5
  {
    Round(wordCount as real / duration * 60.0)
  }

  function Abs(x: int): nat {
    if x < 0 then -x else x
  }

  /** `100 - fillerWordRatio * 50 - |speechRate - 150| * 0.2`, before clamping. */
  function RawFluency(wordCount: nat, speechRate: int, fillerWordCount: real): (raw: real)
    requires wordCount > 0
    ensures fillerWordCount >= 0.0 ==> raw <= 100.0
    ensures fillerWordCount >= 0.0 ==> (raw == 100.0 <==> fillerWordCount == 0.0 && speechRate == IdealRate)
  {
    var ratio := fillerWordCount / wordCount as real;
    assert fillerWordCount >= 0.0 ==> ratio >= 0.0 && (ratio == 0.0 <==> fillerWordCount == 0.0);
    100.0 - (fillerWordCount / wordCount as real) * 50.0 - Abs(speechRate - IdealRate) as real * 0.2
  }

  /** `Math.max(0, Math.min(100, raw))`. */
  function FluencyScore(wordCount: nat, speechRate: int, fillerWordCount: real): (f: real)
    requires wordCount > 0
    ensures 0.0 <= f <= 100.0
    ensures 0.0 <= RawFluency(wordCount, speechRate, fillerWordCount) <= 100.0 ==>
              f == RawFluency(wordCount, speechRate, fillerWordCount)
    ensures RawFluency(wordCount, speechRate, fillerWordCount) < 0.0 ==> f == 0.0
    ensures RawFluency(wordCount, speechRate, fillerWordCount) > 100.0 ==> f == 100.0
  {
    var raw := RawFluency(wordCount, speechRate, fillerWordCount);
    if raw > 100.0 then 100.0 else if raw < 0.0 then 0.0 else raw
  }

  /** `Math.round(fluencyScore)`, the value sent to the client. */
  function ReportedFluency(wordCount: nat, speechRate: int, fillerWordCount: real): (r: int)
    requires wordCount > 0
    ensures 0 <= r <= 100
  {
    var f := FluencyScore(wordCount, speechRate, fillerWordCount);
    RoundMonotone(0.0, f);
    RoundMonotone(f, 100.0);
    assert Round(0.0) == 0 && Round(100.0) == 100;
    Round(f)
  }

  /** The word count is the number of whitespace-separated words,
      whatever white space surrounds and separates them. */
  lemma WordCountOfSpacedWords(lead: string, words: seq<string>, gaps: seq<string>, trail: string)
    requires AllSpace(lead) && AllSpace(trail)
    requires |words| == |gaps| + 1
    requires forall k :: 0 <= k < |words| ==> words[k] != [] && NoSpace(words[k])
    requires forall k :: 0 <= k < |gaps| ==> gaps[k] != [] && AllSpace(gaps[k])
    ensures WordCount(lead + Interleave(words, gaps) + trail) == |words|
  {
    var m := Interleave(words, gaps);
    InterleaveTrimmed(words, gaps);
    TrimPadded(lead, m, trail);
    SplitInterleave(words, gaps);
  }

  lemma RoundMonotone(x: real, y: real)
    requires x <= y
    ensures Round(x) <= Round(y)
  {
  }

  /** No filler words at exactly 150 words per minute is a perfect 100. */
  lemma IdealDeliveryScoresFull(wordCount: nat)
    requires wordCount > 0
    ensures FluencyScore(wordCount, IdealRate, 0.0) == 100.0
    ensures ReportedFluency(wordCount, IdealRate, 0.0) == 100
  {
    assert 0.0 / wordCount as real == 0.0;
  }

  /** More filler words never raise the score. */
  lemma FluencyAntitoneInFillers(wordCount: nat, speechRate: int, f1: real, f2: real)
    requires wordCount > 0 && f1 <= f2
    ensures FluencyScore(wordCount, speechRate, f2) <= FluencyScore(wordCount, speechRate, f1)
    ensures ReportedFluency(wordCount, speechRate, f2) <= ReportedFluency(wordCount, speechRate, f1)
  {
    var w := wordCount as real;
    assert f1 / w <= f2 / w by {
      assert f2 / w - f1 / w == (f2 - f1) / w;
    }
    RoundMonotone(FluencyScore(wordCount, speechRate, f2), FluencyScore(wordCount, speechRate, f1));
  }

  /** A pace further from 150 words per minute never raises the score. */
  lemma FluencyAntitoneInPaceError(wordCount: nat, r1: int, r2: int, fillerWordCount: real)
    requires wordCount > 0 && Abs(r1 - IdealRate) <= Abs(r2 - IdealRate)
    ensures FluencyScore(wordCount, r2, fillerWordCount) <= FluencyScore(wordCount, r1, fillerWordCount)
  {
  }

  /** 11 words in 10 seconds with 3 filler words: 66 words per minute and
      a score of 100 - 150/11 - 16.8, about 69.56, reported as 70. */
  lemma WorkedExample()
    ensures SpeechRate(11, 10.0) == 66
    ensures ReportedFluency(11, 66, 3.0) == 70
  {
    assert 11.0 / 10.0 * 60.0 == 66.0;
    assert RawFluency(11, 66, 3.0) == 100.0 - 150.0 / 11.0 - 16.8;
    assert FluencyScore(11, 66, 3.0) == 100.0 - 150.0 / 11.0 - 16.8;
  }
}
