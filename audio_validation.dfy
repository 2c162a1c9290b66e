/** `validateAudioInput` of the transcription endpoint: the `audio` field
    must be a non-empty string over the base64 alphabet of at most
    10,485,760 characters. The checks run in a fixed order and the first
    that fails names the error. */
module AudioValidation {
  import opened Common

  /** 10 MB of base64 text, about 7.5 MB of audio. */
  const MaxAudioLength: nat := 10485760

  const NotAString: string := "Audio must be a base64 string"
  const BadFormat: string := "Invalid base64 format"
  const TooLarge: string := "Audio too large. Maximum 7.5MB (approximately 5-7 minutes)"

  /** The character class `[A-Za-z0-9+/=]`. */
  predicate IsBase64Char(c: char) {
    ('A' <= c <= 'Z') || ('a' <= c <= 'z') || ('0' <= c <= '9') || c == '+' || c == '/' || c == '='
  }

  /** The regular expression `^[A-Za-z0-9+/=]+$`: one or more characters
      of the class and nothing else. */
  predicate IsBase64Text(s: string) {
    |s| > 0 && forall i :: 0 <= i < |s| ==> IsBase64Char(s[i])
  }

  /** `audio` is None when the body has no such field (undefined). */
  function ValidateAudio(audio: Option<Json>): (v: Validation)
    ensures v == Valid <==>
              audio.Some? && audio.value.JString? && IsBase64Text(audio.value.s) && |audio.value.s| <= MaxAudioLength
    ensures v.Invalid? ==> v.error in {NotAString, BadFormat, TooLarge}
  {
    if !(audio.Some? && audio.value.JString?) then Invalid(NotAString)
    else if !IsBase64Text(audio.value.s) then Invalid(BadFormat)
    else if |audio.value.s| > MaxAudioLength then Invalid(TooLarge)
    else Valid
  }

  /** A character that carries six bits: the alphabet without '='. */
  predicate IsSextetChar(c: char) {
    IsBase64Char(c) && c != '='
  }

  /** The padding step of the forgiving-base64 decode that `atob` runs
      (WHATWG HTML standard, "forgiving-base64 decode"): when the length is
      a multiple of four, one or two trailing '=' are dropped. */
  function StripPadding(s: string): (t: string)
    ensures t <= s && |s| <= |t| + 2
    ensures forall i :: |t| <= i < |s| ==> s[i] == '='
    ensures |t| < |s| ==> |s| % 4 == 0
  {
    if |s| % 4 == 0 && |s| >= 2 && s[|s| - 2] == '=' && s[|s| - 1] == '=' then s[..|s| - 2]
    else if |s| % 4 == 0 && |s| >= 1 && s[|s| - 1] == '=' then s[..|s| - 1]
    else s
  }

  /** `atob` returns instead of throwing: after the padding is dropped, only
      sextet characters remain and the length is not 1 modulo 4. The
      decode's first step, removing ASCII white space, is not written out:
      text the validator accepts holds none. */
  predicate Decodable(s: string) {
    var t := StripPadding(s);
    |t| % 4 != 1 && forall i :: 0 <= i < |t| ==> IsSextetChar(t[i])
  }

  /** The validator is weaker than the decoder: it accepts "A" (a length
      of 1 modulo 4), "AB=" (padding on a length that is not a multiple of
      four) and "====" (padding left after the strip), and `atob` rejects
      all three. */
  lemma AcceptedButUndecodable()
    ensures ValidateAudio(Some(JString("A"))) == Valid && !Decodable("A")
    ensures ValidateAudio(Some(JString("AB="))) == Valid && !Decodable("AB=")
    ensures ValidateAudio(Some(JString("===="))) == Valid && !Decodable("====")
  {
    assert StripPadding("AB=") == "AB=";
    assert !IsSextetChar("AB="[2]);
    assert StripPadding("====") == "==";
    assert !IsSextetChar("=="[0]);
  }

  /** ... but never the other way round: non-empty text that decodes and
      fits the ceiling passes the validator. */
  lemma DecodableAccepted(s: string)
    requires s != [] && |s| <= MaxAudioLength && Decodable(s)
    ensures ValidateAudio(Some(JString(s))) == Valid
  {
    var t := StripPadding(s);
    forall i | 0 <= i < |s|
      ensures IsBase64Char(s[i])
    {
      if i < |t| {
        assert s[i] == t[i] && IsSextetChar(t[i]);
      }
    }
  }

  /** What a standard encoder emits decodes: sextet characters whose
      length is not 1 modulo 4, with or without the '=' padding that
      brings the length to a multiple of four. */
  lemma EncoderOutputDecodable(data: string, pad: string)
    requires forall i :: 0 <= i < |data| ==> IsSextetChar(data[i])
    requires |data| % 4 != 1
    requires pad == (if |data| % 4 == 2 then "==" else if |data| % 4 == 3 then "=" else "")
    ensures Decodable(data) && Decodable(data + pad)
  {
    assert StripPadding(data) == data by {
      if |data| > 0 {
        assert IsSextetChar(data[|data| - 1]);
      }
    }
    var s := data + pad;
    assert s[..|data|] == data;
    if |data| % 4 == 2 {
      assert s[|s| - 2] == '=' && s[|s| - 1] == '=';
      assert StripPadding(s) == data;
    } else if |data| % 4 == 3 {
      assert s[|s| - 2] == data[|data| - 1];
      assert IsSextetChar(data[|data| - 1]);
      assert StripPadding(s) == data;
    } else {
      assert s == data;
    }
  }

  /** Every value that is not a string, including a missing field, gets the
      type error. */
  lemma NonStringRejected(audio: Option<Json>)
    requires audio.None? || !audio.value.JString?
    ensures ValidateAudio(audio) == Invalid(NotAString)
  {
  }

  /** The empty string is not base64 text. */
  lemma EmptyRejected()
    ensures ValidateAudio(Some(JString(""))) == Invalid(BadFormat)
  {
  }

  /** A character outside the alphabet is reported as a format error, even
      when the string is also too long: the format check runs first. */
  lemma FormatCheckedBeforeSize(s: string, i: nat)
    requires i < |s| && !IsBase64Char(s[i])
    ensures ValidateAudio(Some(JString(s))) == Invalid(BadFormat)
  {
  }

  /** A well-formed string is rejected for size exactly when it is longer
      than the ceiling. */
  lemma SizeCeiling(s: string)
    requires IsBase64Text(s)
    ensures ValidateAudio(Some(JString(s))) == (if |s| > MaxAudioLength then Invalid(TooLarge) else Valid)
  {
  }

  /** Accepted audio that `atob` decodes yields at most 7,864,320 bytes:
      the decode turns every four characters left after the padding is
      dropped into three bytes, rounding down. */
  lemma DecodedSizeBound(s: string)
    requires ValidateAudio(Some(JString(s))) == Valid && Decodable(s)
    ensures |StripPadding(s)| * 3 / 4 <= 7864320
  {
  }
}
