/** `validateAnalysisInput` of the analysis endpoint: a transcript that is
    a string, not blank and at most 10,000 characters long; a duration in
    (0, 600] seconds; a filler-word count in [0, 1000]. The checks run in
    this order and the first that fails names the error. */
module AnalysisValidation {
  import opened Common
  import opened Words

  const MaxTranscriptLength: nat := 10000

  const TranscriptNotString: string := "Transcript must be a string"
  const TranscriptEmpty: string := "Transcript cannot be empty"
  const TranscriptTooLong: string := "Transcript too long. Maximum 10,000 characters."
  const BadDuration: string := "Duration must be between 1 and 600 seconds (10 minutes)"
  const BadFillerCount: string := "Filler word count must be between 0 and 1000"

  predicate TranscriptOk(t: Option<Json>)
    ensures TranscriptOk(t) <==>
              t.Some? && t.value.JString? && !AllSpace(t.value.s) && |t.value.s| <= MaxTranscriptLength
  {
    t.Some? && t.value.JString? && Trim(t.value.s) != [] && |t.value.s| <= MaxTranscriptLength
  }

  predicate DurationOk(d: Option<Json>)
    ensures DurationOk(d) ==> d.Some? && d.value.JNumber? && d.value.n <= 600.0
    ensures d.Some? && d.value.JNumber? && 0.0 < d.value.n < 1.0 ==> DurationOk(d)
  {
    d.Some? && d.value.JNumber? && 0.0 < d.value.n <= 600.0
  }

  predicate FillerCountOk(f: Option<Json>)
    ensures FillerCountOk(f) ==> f.Some? && f.value.JNumber? && f.value.n >= 0.0
    ensures f.Some? && f.value.JNumber? && 0.0 < f.value.n < 1.0 ==> FillerCountOk(f)
  {
    f.Some? && f.value.JNumber? && 0.0 <= f.value.n <= 1000.0
  }

  /** `data` is the decoded body; missing fields are `undefined`. */
  function ValidateAnalysisInput(data: Json): (v: Validation)
    ensures v == Valid <==>
              TranscriptOk(Field(data, "transcript")) && DurationOk(Field(data, "duration"))
              && FillerCountOk(Field(data, "fillerWordCount"))
    ensures v.Invalid? ==> v.error in {TranscriptNotString, TranscriptEmpty, TranscriptTooLong, BadDuration, BadFillerCount}
  {
    var transcript, duration, fillerWordCount :=
      Field(data, "transcript"), Field(data, "duration"), Field(data, "fillerWordCount");
    if !(transcript.Some? && transcript.value.JString?) then Invalid(TranscriptNotString)
    else if Trim(transcript.value.s) == [] then Invalid(TranscriptEmpty)
    else if |transcript.value.s| > MaxTranscriptLength then Invalid(TranscriptTooLong)
    else if !DurationOk(duration) then Invalid(BadDuration)
    else if !FillerCountOk(fillerWordCount) then Invalid(BadFillerCount)
    else Valid
  }

  /** The transcript is checked first: a bad transcript is reported
      whatever the other fields hold, and the three transcript errors come
      in a fixed order. */
  lemma TranscriptErrorsFirst(data: Json)
    ensures var t := Field(data, "transcript");
            (t.None? || !t.value.JString? ==> ValidateAnalysisInput(data) == Invalid(TranscriptNotString))
            && (t.Some? && t.value.JString? && AllSpace(t.value.s) ==> ValidateAnalysisInput(data) == Invalid(TranscriptEmpty))
            && ((t.Some? && t.value.JString? && !AllSpace(t.value.s) && |t.value.s| > MaxTranscriptLength)
                ==> ValidateAnalysisInput(data) == Invalid(TranscriptTooLong))
  {
  }

  /** The length ceiling applies to the untrimmed transcript: padding a
      short text with white space can push it over. */
  lemma LengthCountsWhiteSpace(word: string, padding: string)
    requires word != [] && NoSpace(word) && |word| <= MaxTranscriptLength
    requires AllSpace(padding) && |word| + |padding| > MaxTranscriptLength
    ensures ValidateAnalysisInput(JObject(map["transcript" := JString(word + padding)])) == Invalid(TranscriptTooLong)
  {
    var s := word + padding;
    assert !IsSpace(s[0]);
    assert !AllSpace(s);
  }

  /** A validated transcript has at least one word, and every word is
      non-empty and free of white space; so the filler ratio never divides
      by zero. */
  lemma ValidTranscriptHasWords(data: Json)
    requires ValidateAnalysisInput(data) == Valid
    ensures var t := Field(data, "transcript").value.s;
            |Split(Trim(t))| >= 1
            && forall k :: 0 <= k < |Split(Trim(t))| ==> Split(Trim(t))[k] != [] && NoSpace(Split(Trim(t))[k])
  {
    SplitTrimmedIntoWords(Trim(Field(data, "transcript").value.s));
  }
}
