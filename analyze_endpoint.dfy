/** The `analyze-speech` request handler: configuration check, caller
    identity, rate limit, then body validation, metrics, one call to the
    language-model gateway and the feedback choice. The gateway's reply and
    JSON.parse are parameters; nothing else is hidden. */
module AnalyzeEndpoint {
  import opened Common
  import opened Identity
  import opened RateLimit
  import opened AnalysisValidation
  import opened Metrics
  import opened Feedback
  import Words

  const Endpoint: string := "analyze-speech"

  /** The gateway's HTTP status and, when it succeeds, the model's text. */
  datatype GatewayReply = GatewayReply(status: int, content: string)

  /** Everything after the rate limit let the request through. */
  function AnalyzeAdmitted(body: Option<Json>, gateway: GatewayReply, parse: string -> Option<Json>): (r: Response)
    ensures r.status in {200, 400, 402, 429, 500}
    ensures Readable(body) ==> (r.status == 400 <==> ValidateAnalysisInput(body.value).Invalid?)
    ensures r.status == 200 ==>
              Readable(body) && ValidateAnalysisInput(body.value) == Valid && HttpOk(gateway.status)
              && r.body.AnalysisBody? && 0 <= r.body.metrics.fluencyScore <= 100 && r.body.metrics.wordCount >= 1
    ensures Readable(body) && ValidateAnalysisInput(body.value) == Valid ==>
              r.status == (if HttpOk(gateway.status) then 200 else FailureStatus(ClassifyGateway(gateway.status)))
  {
    if !Readable(body) then Response(500, ErrorBody(UnreadableBody, None))
    else
      var data := body.value;
      match ValidateAnalysisInput(data)
      case Invalid(error) => Response(400, ErrorBody(error, None))
      case Valid =>
        var transcript := Field(data, "transcript").value.s;
        var duration := Field(data, "duration").value.n;
        var fillerWordCount := Field(data, "fillerWordCount").value.n;
        var wordCount := WordCount(transcript);
        var speechRate := SpeechRate(wordCount, duration);
        match ClassifyGateway(gateway.status)
        case PassOn(status, message) => Response(status, ErrorBody(message, None))
        case Thrown(message) => Response(500, ErrorBody(message, None))
        case Proceed =>
          var metrics := SpeechMetrics(ReportedFluency(wordCount, speechRate, fillerWordCount),
                                 wordCount, speechRate, fillerWordCount);
          Response(200, AnalysisBody(metrics, ChooseFeedback(parse(gateway.content))))
  }

  /** The metrics of a successful analysis are the ones the formulas give. */
  lemma SuccessMetrics(body: Option<Json>, gateway: GatewayReply, parse: string -> Option<Json>)
    requires AnalyzeAdmitted(body, gateway, parse).status == 200
    ensures var data := body.value;
            var t := Field(data, "transcript").value.s;
            var m := AnalyzeAdmitted(body, gateway, parse).body.metrics;
            m.wordCount == |Words.Split(Words.Trim(t))|
            && m.speechRate == Round(m.wordCount as real / Field(data, "duration").value.n * 60.0)
            && m.fillerWordCount == Field(data, "fillerWordCount").value.n
            && m.fluencyScore == ReportedFluency(m.wordCount, m.speechRate, m.fillerWordCount)
  {
    var data := body.value;
    assert ValidateAnalysisInput(data) == Valid;
    assert ClassifyGateway(gateway.status) == Proceed;
    var transcript := Field(data, "transcript").value.s;
    var duration := Field(data, "duration").value.n;
    var fillerWordCount := Field(data, "fillerWordCount").value.n;
    var wordCount := WordCount(transcript);
    var speechRate := SpeechRate(wordCount, duration);
    var m := AnalyzeAdmitted(body, gateway, parse).body.metrics;
    assert m == SpeechMetrics(ReportedFluency(wordCount, speechRate, fillerWordCount),
                              wordCount, speechRate, fillerWordCount);
  }

  /** A model reply that is not JSON never fails the request. */
  lemma UnparseableReplyUsesFallback(body: Option<Json>, gateway: GatewayReply, parse: string -> Option<Json>)
    requires Readable(body) && ValidateAnalysisInput(body.value) == Valid && HttpOk(gateway.status)
    requires parse(gateway.content).None?
    ensures AnalyzeAdmitted(body, gateway, parse).status == 200
    ensures AnalyzeAdmitted(body, gateway, parse).body.feedback == FallbackFeedback()
  {
    assert ClassifyGateway(gateway.status) == Proceed;
    assert ChooseFeedback(parse(gateway.content)) == FallbackFeedback();
  }

  /** The handler. `getUser` is the auth provider, `now` the clock,
      `queryFails`/`insertFails` the outcome of the two database calls. */
  method AnalyzeSpeech(log: RateLimitLog, req: Request, configured: bool, getUser: string -> Option<string>,
                       now: int, queryFails: bool, insertFails: bool,
                       gateway: GatewayReply, parse: string -> Option<Json>)
    returns (resp: Response)
    modifies log
    ensures !configured ==> resp == Response(500, ErrorBody(ConfigurationError, None)) && log.rows == old(log.rows)
    ensures configured ==>
              var caller := ResolveCaller(req.authorization, req.forwardedFor, getUser);
              var d := if queryFails then Allowed else Decide(old(log.rows), caller, Endpoint, now);
              (d.Refused? ==> resp == Response(429, ErrorBody(d.error, None)) && log.rows == old(log.rows))
              && (d.Allowed? ==> resp == AnalyzeAdmitted(req.body, gateway, parse)
                                 && log.rows == (if queryFails || insertFails then old(log.rows)
                                                 else Record(old(log.rows), caller, Endpoint, now)))
  {
    if !configured {
      return Response(500, ErrorBody(ConfigurationError, None));
    }
    var caller := ResolveCaller(req.authorization, req.forwardedFor, getUser);
    var rateLimitResult := log.CheckRateLimit(caller, Endpoint, now, queryFails, insertFails);
    if rateLimitResult.Refused? {
      return Response(429, ErrorBody(rateLimitResult.error, None));
    }
    resp := AnalyzeAdmitted(req.body, gateway, parse);
  }
}
