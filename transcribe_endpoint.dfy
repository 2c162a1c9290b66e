/** The `transcribe-audio` request handler: configuration check, caller
    identity, rate limit, then audio validation, upload, job submission,
    the bounded poll loop and filler-word counting. The speech-to-text
    service appears as its HTTP statuses and the status-check function. */
module TranscribeEndpoint {
  import opened Common
  import opened Identity
  import opened RateLimit
  import opened AudioValidation
  import opened Polling
  import opened FillerWords
  import Decimal

  const Endpoint: string := "transcribe-audio"
  const FailureDetails: string := "Transcription failed. Please check your audio and try again."
  const TimeoutMessage: string := "Transcription timeout"

  /** Text of the exception `atob` raises on text it cannot decode; the
      runtime's exact wording is not modelled. */
  const DecodeError: string := "audio could not be decoded from base64"

  /** The audio text of a body whose audio passed validation. */
  function AudioText(body: Option<Json>): (s: string)
    requires Readable(body) && ValidateAudio(Field(body.value, "audio")) == Valid
    ensures IsBase64Text(s) && |s| <= MaxAudioLength
  {
    Field(body.value, "audio").value.s
  }

  /** A caught error: status 500 with the message and the fixed details. */
  function Failure(message: string): (r: Response)
    ensures r.status == 500 && r.body.ErrorBody? && r.body.error == message && r.body.details == Some(FailureDetails)
  {
    Response(500, ErrorBody(message, Some(FailureDetails)))
  }

  /** The error message a failed poll is reported with. */
  function PollFailureMessage(outcome: PollOutcome): string
    requires !outcome.Completed?
  {
    match outcome
    case RemoteError(message) => message
    case CheckFailed(message) => message
    case TimedOut => TimeoutMessage
  }

  /** The response once the rate limit let the request through, as a
      function of the body and the replies of the speech-to-text service. */
  function AdmittedResponse(body: Option<Json>, uploadStatus: int, submitStatus: int,
                            check: nat -> StatusReply): (r: Response)
    ensures r.status in {200, 400, 500}
    ensures Readable(body) ==> (r.status == 400 <==> ValidateAudio(Field(body.value, "audio")).Invalid?)
    ensures Readable(body) && ValidateAudio(Field(body.value, "audio")) == Valid && !Decodable(AudioText(body)) ==>
              r == Failure(DecodeError)
    ensures r.status == 200 <==>
              Readable(body) && ValidateAudio(Field(body.value, "audio")) == Valid && Decodable(AudioText(body))
              && HttpOk(uploadStatus) && HttpOk(submitStatus) && PollFrom(check, 0).Completed?
    ensures r.status == 200 ==>
              r.body.TranscriptionBody? && r.body.transcript == PollFrom(check, 0).job.text
              && r.body.fillerWordCount == FillerCount(r.body.transcript)
              && r.body.wordCount == PollFrom(check, 0).job.wordCount
    ensures r.status == 500 ==> r.body.ErrorBody? && r.body.details == Some(FailureDetails)
  {
    if !Readable(body) then Failure(UnreadableBody)
    else match ValidateAudio(Field(body.value, "audio"))
      case Invalid(error) => Response(400, ErrorBody(error, None))
      case Valid =>
        if !Decodable(AudioText(body)) then Failure(DecodeError)
        else if !HttpOk(uploadStatus) then Failure("Failed to upload audio: " + Decimal.IntToString(uploadStatus))
        else if !HttpOk(submitStatus) then
          Failure("Failed to request transcription: " + Decimal.IntToString(submitStatus))
        else
          var outcome := PollFrom(check, 0);
          if outcome.Completed? then
            Response(200, TranscriptionBody(outcome.job.text, FillerCount(outcome.job.text), outcome.job.wordCount,
                                            outcome.job.duration, outcome.job.confidence))
          else Failure(PollFailureMessage(outcome))
  }

  /** Audio "A" passes validation, yet the request fails with a 500 before
      anything is uploaded, whatever the speech-to-text service would say. */
  lemma SingleCharacterAudioFails(uploadStatus: int, submitStatus: int, check: nat -> StatusReply)
    ensures var body := Some(JObject(map["audio" := JString("A")]));
            Readable(body) && ValidateAudio(Field(body.value, "audio")) == Valid
            && AdmittedResponse(body, uploadStatus, submitStatus, check) == Failure(DecodeError)
  {
    var body := Some(JObject(map["audio" := JString("A")]));
    assert Field(body.value, "audio") == Some(JString("A"));
    AcceptedButUndecodable();
  }

  /** Everything after the rate limit let the request through. `uploaded`
      says whether the audio was sent to the speech-to-text service and
      `statusChecks` how many status requests were made. */
  method TranscribeAdmitted(body: Option<Json>, uploadStatus: int, submitStatus: int, check: nat -> StatusReply)
    returns (resp: Response, uploaded: bool, statusChecks: nat)
    ensures resp == AdmittedResponse(body, uploadStatus, submitStatus, check)
    ensures !Readable(body) ==> resp == Failure(UnreadableBody)
    ensures resp.status == 400 ==> Readable(body) && resp == Response(400, ErrorBody(ValidateAudio(Field(body.value, "audio")).error, None))
    ensures uploaded && !HttpOk(uploadStatus) ==>
              resp == Failure("Failed to upload audio: " + Decimal.IntToString(uploadStatus))
    ensures uploaded && HttpOk(uploadStatus) && !HttpOk(submitStatus) ==>
              resp == Failure("Failed to request transcription: " + Decimal.IntToString(submitStatus))
    ensures statusChecks <= MaxAttempts
    ensures !uploaded ==> statusChecks == 0
    ensures Readable(body) && ValidateAudio(Field(body.value, "audio")) == Valid && !Decodable(AudioText(body)) ==>
              resp == Failure(DecodeError)
    ensures uploaded <==> Readable(body) && ValidateAudio(Field(body.value, "audio")) == Valid && Decodable(AudioText(body))
    ensures statusChecks > 0 <==> uploaded && HttpOk(uploadStatus) && HttpOk(submitStatus)
    ensures uploaded && HttpOk(uploadStatus) && HttpOk(submitStatus) ==>
              (PollFrom(check, 0) == TimedOut <==> statusChecks == MaxAttempts && resp == Failure(TimeoutMessage))
  {
    uploaded, statusChecks := false, 0;
    if !Readable(body) {
      return Failure(UnreadableBody), uploaded, statusChecks;
    }
    var validation := ValidateAudio(Field(body.value, "audio"));
    if validation.Invalid? {
      return Response(400, ErrorBody(validation.error, None)), uploaded, statusChecks;
    }
    if !Decodable(AudioText(body)) {
      return Failure(DecodeError), uploaded, statusChecks;
    }
    uploaded := true;
    if !HttpOk(uploadStatus) {
      return Failure("Failed to upload audio: " + Decimal.IntToString(uploadStatus)), uploaded, statusChecks;
    }
    if !HttpOk(submitStatus) {
      return Failure("Failed to request transcription: " + Decimal.IntToString(submitStatus)), uploaded, statusChecks;
    }
    var outcome, attempts := PollTranscript(check);
    statusChecks := if attempts == MaxAttempts then attempts else attempts + 1;
    if !outcome.Completed? {
      return Failure(PollFailureMessage(outcome)), uploaded, statusChecks;
    }
    var transcript := outcome.job;
    var fillerWordCount := CountFillerWords(transcript.text);
    resp := Response(200, TranscriptionBody(transcript.text, fillerWordCount, transcript.wordCount,
                                            transcript.duration, transcript.confidence));
  }

  /** The handler. `getUser` is the auth provider, `now` the clock,
      `queryFails`/`insertFails` the outcome of the two database calls. */
  method TranscribeAudio(log: RateLimitLog, req: Request, configured: bool, getUser: string -> Option<string>,
                         now: int, queryFails: bool, insertFails: bool,
                         uploadStatus: int, submitStatus: int, check: nat -> StatusReply)
    returns (resp: Response)
    modifies log
    ensures !configured ==> resp == Response(500, ErrorBody(ConfigurationError, None)) && log.rows == old(log.rows)
    ensures configured ==>
              var caller := ResolveCaller(req.authorization, req.forwardedFor, getUser);
              var d := if queryFails then Allowed else Decide(old(log.rows), caller, Endpoint, now);
              (d.Refused? ==> resp == Response(429, ErrorBody(d.error, None)) && log.rows == old(log.rows))
              && (d.Allowed? ==> resp == AdmittedResponse(req.body, uploadStatus, submitStatus, check)
                                 && log.rows == (if queryFails || insertFails then old(log.rows)
                                                 else Record(old(log.rows), caller, Endpoint, now)))
    ensures configured && Readable(req.body) && ValidateAudio(Field(req.body.value, "audio")).Invalid? ==>
              resp.status in {400, 429}
    ensures configured && Readable(req.body) && ValidateAudio(Field(req.body.value, "audio")) == Valid
            && !Decodable(AudioText(req.body)) ==>
              resp.status == 429 || resp == Failure(DecodeError)
  {
    if !configured {
      return Response(500, ErrorBody(ConfigurationError, None));
    }
    var caller := ResolveCaller(req.authorization, req.forwardedFor, getUser);
    var rateLimitResult := log.CheckRateLimit(caller, Endpoint, now, queryFails, insertFails);
    if rateLimitResult.Refused? {
      return Response(429, ErrorBody(rateLimitResult.error, None));
    }
    var uploaded, statusChecks;
    resp, uploaded, statusChecks := TranscribeAdmitted(req.body, uploadStatus, submitStatus, check);
  }
}
