/** What the analysis endpoint does with the language-model gateway's
    reply: a failing HTTP status is classified (429 and 402 are passed on,
    anything else becomes a thrown error and a 500), and the model's text
    is parsed as JSON, with a fixed fallback when it does not parse. */
module Feedback {
  import opened Common
  import Decimal

  datatype GatewayOutcome =
    | Proceed
    | PassOn(status: int, message: string)
    | Thrown(message: string)

  const GatewayRateLimited: string := "Rate limit exceeded. Please try again later."
  const GatewayPaymentRequired: string := "Payment required. Please add funds to your workspace."

  function ClassifyGateway(status: int): (g: GatewayOutcome)
    ensures g.Proceed? <==> HttpOk(status)
    ensures g.PassOn? ==> g.status == status && (status == 429 || status == 402)
    ensures g.Thrown? <==> !HttpOk(status) && status != 429 && status != 402
  {
    if HttpOk(status) then Proceed
    else if status == 429 then PassOn(429, GatewayRateLimited)
    else if status == 402 then PassOn(402, GatewayPaymentRequired)
    else Thrown("AI Gateway error: " + Decimal.IntToString(status))
  }

  /** The HTTP status the endpoint answers with for a failed gateway call:
      a thrown error is caught by the handler and becomes a 500. */
  function FailureStatus(g: GatewayOutcome): (status: int)
    requires !g.Proceed?
    ensures g.Thrown? ==> status == 500
    ensures g.PassOn? ==> status == g.status
  {
    if g.PassOn? then g.status else 500
  }

  /** 429 gives 429, 402 gives 402, every other non-2xx status gives 500. */
  lemma GatewayStatusMapping(status: int)
    requires !HttpOk(status)
    ensures FailureStatus(ClassifyGateway(status)) == (if status == 429 || status == 402 then status else 500)
  {
  }

  function JsonStrings(items: seq<string>): (r: seq<Json>)
    ensures |r| == |items|
    ensures forall i :: 0 <= i < |r| ==> r[i] == JString(items[i])
  {
    if items == [] then [] else [JString(items[0])] + JsonStrings(items[1..])
  }

  const FallbackDelivery: seq<string> := [
    "Practice maintaining a steady pace throughout your speech",
    "Consider varying your tone to emphasize key points",
    "Work on reducing hesitation and building confidence"]

  const FallbackContent: seq<string> := [
    "Your main points could be more clearly structured",
    "Consider adding specific examples to support your ideas",
    "Try to maintain focus on your central message"]

  /** The hand-written feedback used when the model's text is not JSON. */
  function FallbackFeedback(): (f: Json)
    ensures f.JObject? && f.fields.Keys == {"delivery", "content"}
  {
    JObject(map["delivery" := JArray(JsonStrings(FallbackDelivery)),
                "content" := JArray(JsonStrings(FallbackContent))])
  }

  /** The shape the client expects: `delivery` and `content` lists of strings. */
  predicate WellFormedFeedback(j: Json) {
    j.JObject? && "delivery" in j.fields && "content" in j.fields
    && j.fields["delivery"].JArray? && j.fields["content"].JArray?
    && (forall x :: x in j.fields["delivery"].items ==> x.JString?)
    && (forall x :: x in j.fields["content"].items ==> x.JString?)
  }

  /** `try { JSON.parse(aiResponse) } catch { fallback }`; `parsed` is the
      result of JSON.parse, None when it throws. */
  function ChooseFeedback(parsed: Option<Json>): (f: Json)
    ensures parsed.Some? ==> f == parsed.value
    ensures parsed.None? ==> WellFormedFeedback(f)
  {
    match parsed
    case Some(value) => value
    case None =>
      FallbackHasThreeAndThree();
      FallbackFeedback()
  }

  /** The fallback holds three delivery points and three content points. */
  lemma FallbackHasThreeAndThree()
    ensures WellFormedFeedback(FallbackFeedback())
    ensures |FallbackFeedback().fields["delivery"].items| == 3
    ensures |FallbackFeedback().fields["content"].items| == 3
  {
    var f := FallbackFeedback();
    assert "delivery" != "content" by { assert "delivery"[0] != "content"[0]; }
    assert f.fields["delivery"] == JArray(JsonStrings(FallbackDelivery));
    assert f.fields["content"] == JArray(JsonStrings(FallbackContent));
  }

  /** Well-formed feedback stays well-formed whichever branch is taken. */
  lemma FeedbackWellFormedWhenModelComplies(parsed: Option<Json>)
    requires parsed.Some? ==> WellFormedFeedback(parsed.value)
    ensures WellFormedFeedback(ChooseFeedback(parsed))
  {
  }
}
