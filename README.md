# Speech coach: a verified model of the request pipeline and list store

This project models the logic core of a speech-coaching web application in
Dafny. The application has two serverless endpoints and a browser-side list
store:

- **`transcribe-audio`** checks that the uploaded audio is base64 text of
  bounded size. It submits the audio to a speech-to-text service, polls the
  job at most 60 times and counts filler words in the finished transcript.
- **`analyze-speech`** checks a transcript, a duration and a filler-word
  count. It computes word count, speech rate and a clamped fluency score,
  asks a language-model gateway for feedback, and substitutes fixed
  feedback when the model's reply is not JSON.
- **Identity and rate limit.** Before doing any work, both endpoints
  identify the caller: a signed-in user, or else a guest identified by the
  first `x-forwarded-for` entry. They then apply a sliding-hour rate limit
  kept in an append-only table: 20 requests per hour for users, 3 for
  guests.
- **The local list store** keeps practice scenarios and finished sessions
  in browser local storage. Scenarios are upserted by id and deleted by id.
  Sessions are prepended and looked up by id.

Files, one module each:

| file | module | what it holds |
|---|---|---|
| common.dfy | Common | `Option`, a JSON value, field lookup, the HTTP response shapes |
| decimal.dfy | Decimal | integer-to-decimal text for error messages, with its round trip |
| identity.dfy | Identity | bearer-token extraction, `x-forwarded-for` first field, the caller rule |
| rate_limit.dfy | RateLimit | the log rows, the count and decision functions, class `RateLimitLog` |
| audio_validation.dfy | AudioValidation | `validateAudioInput`, and which texts `atob` can decode |
| polling.dfy | Polling | the bounded status-poll loop |
| filler_words.dfy | FillerWords | the whole-word, case-insensitive filler count |
| words.dfy | Words | JavaScript `trim()` and `split(/\s+/)` |
| analysis_validation.dfy | AnalysisValidation | `validateAnalysisInput` |
| metrics.dfy | Metrics | word count, speech rate, fluency score |
| feedback.dfy | Feedback | gateway status classification, JSON-or-fallback feedback |
| analyze_endpoint.dfy | AnalyzeEndpoint | the `analyze-speech` handler |
| transcribe_endpoint.dfy | TranscribeEndpoint | the `transcribe-audio` handler |
| storage.dfy | Storage | class `LocalStore` and the list operations it uses |

Outside services are parameters, so they are visible in every contract:

- the auth provider is `getUser: string -> Option<string>`;
- the speech-to-text status endpoint is `check: nat -> StatusReply`, where `check(n)` is the reply to the (n+1)-th poll;
- the upload and submit calls are their HTTP statuses;
- the gateway reply is a status and a text;
- `JSON.parse` is `parse: string -> Option<Json>`;
- the clock is `now` in milliseconds;
- the two database calls are `queryFails` and `insertFails`;
- a `localStorage.setItem` that throws is `writeFails`;
- the environment-variable check is `configured`.

Where the code does something other than its comments, its messages or the endpoints' documented behaviour suggest, the model follows the code:

- **Fail open.** A failed count query lets the request through without
  logging it.
- **No type filter.** The count query does not filter on `identifier_type`,
  so a user row counts against a guest with the same identifier string
  (`RateLimit.TypeNotFiltered`).
- **Insert errors ignored.** An error from the insert is never inspected,
  so the request is still allowed.
- **No brace extraction.** The model's reply goes to `JSON.parse` as it
  is. Any value that parses, even one that is not a `{delivery, content}`
  object, is returned as the feedback.
- **Non-integer filler counts accepted.** A `fillerWordCount` that is not
  an integer passes validation.
- **Validator weaker than the decoder.** The audio check accepts any
  non-empty text over `[A-Za-z0-9+/=]`, including "A" and "AB=". `atob`
  throws on these before anything is uploaded, so they answer 500 and not
  400 (`AudioValidation.AcceptedButUndecodable`,
  `TranscribeEndpoint.SingleCharacterAudioFails`).
- **Duration message.** The message says "between 1 and 600 seconds", but
  the check accepts any duration in (0, 600].

## Model

| member | source | states |
|---|---|---|
| Common.Field | supabase/functions/analyze-speech/index.ts:12 | destructuring a body field gives the member's value when the body is an object holding it, and `undefined` (None) otherwise |
| Decimal.NatToString | supabase/functions/transcribe-audio/index.ts:57 | the rendering of a count is non-empty decimal digits with no leading zero |
| Decimal.IntToString | supabase/functions/transcribe-audio/index.ts:158 | the rendering of an HTTP status in an error message is the digits of the number, preceded by '-' exactly for negative numbers |
| Decimal.NatToStringRoundTrip | supabase/functions/transcribe-audio/index.ts:57 | reading the rendered digits back gives the number |
| Decimal.NatToStringInjective | supabase/functions/transcribe-audio/index.ts:57 | different limits are rendered as different texts |
| Identity.IndexOf | supabase/functions/transcribe-audio/index.ts:98 | the first occurrence of the pattern at or after a position, or -1 exactly when there is none |
| Identity.RemoveFirst | supabase/functions/transcribe-audio/index.ts:98 | string `replace` removes only the first occurrence: unchanged without one; with one, the text with the pattern cut out at an occurrence that has none before it, shorter by the pattern's length |
| Identity.BearerToken | supabase/functions/transcribe-audio/index.ts:98 | the token is never longer than the header, and a header without "Bearer " anywhere is sent to the auth provider unchanged |
| Identity.BearerTokenOfWellFormedHeader | supabase/functions/transcribe-audio/index.ts:98 | a `Bearer <jwt>` header yields exactly the jwt |
| Identity.FirstField | supabase/functions/transcribe-audio/index.ts:108 | `split(',')[0]` is the longest comma-free prefix, stopping at the first comma |
| Identity.FirstFieldOfChain | supabase/functions/transcribe-audio/index.ts:113-115 | for a chain `client,rest` the guest identifier is the client |
| Identity.GuestIdentifier | supabase/functions/transcribe-audio/index.ts:107-108 | a missing or empty forwarded-for header gives "unknown"; otherwise the identifier is a prefix of the header that ends at its end or just before a comma |
| Identity.ResolveCaller | supabase/functions/transcribe-audio/index.ts:96-116 | the caller is a user exactly when a non-empty authorization header's token resolves to a user, with that user's id; otherwise an ip caller with the guest identifier |
| Identity.InvalidTokenSameAsNoToken | supabase/functions/analyze-speech/index.ts:104-124 | a rejected token gives the same caller as no authorization header |
| Identity.GuestIdentifierShape | supabase/functions/analyze-speech/index.ts:115-123 | a guest identifier has no comma and is a prefix of the forwarded-for header when a non-empty one is sent |
| RateLimit.Limit | supabase/functions/transcribe-audio/index.ts:52 | every limit is positive (20 for users, 3 for guests) |
| RateLimit.RecentCount | supabase/functions/transcribe-audio/index.ts:39-44 | the count query never returns more rows than the log holds |
| RateLimit.Decide | supabase/functions/transcribe-audio/index.ts:52-59 | a request is allowed exactly when fewer rows than the caller type's limit were logged for its identifier and endpoint within the hour; a refusal carries the message for that caller type |
| RateLimit.Record | supabase/functions/transcribe-audio/index.ts:62-66 | the log only grows, by exactly one row when the request is allowed, and that row is the caller's identifier, type and endpoint at the time of the request |
| RateLimit.RateLimitLog.CheckRateLimit | supabase/functions/transcribe-audio/index.ts:30-69 | a query error allows the request and leaves the log alone; otherwise the decision is the count-against-limit decision; a refusal leaves the log unchanged and an admission appends exactly one row unless the insert fails |
| RateLimit.RefusalNamesLimit | supabase/functions/transcribe-audio/index.ts:54-58 | a refusal message contains the decimal limit |
| RateLimit.CountAntitone | supabase/functions/transcribe-audio/index.ts:36-44 | the later the window starts, the fewer rows it counts |
| RateLimit.AgedRowLeavesWindow | supabase/functions/transcribe-audio/index.ts:36-44 | a counted row older than the later window start lowers the count |
| RateLimit.CapacityFreesUp | supabase/functions/transcribe-audio/index.ts:36-59 | a caller refused at the limit is allowed once one of the counted rows is over an hour old |
| RateLimit.RecordCountsOnce | supabase/functions/transcribe-audio/index.ts:62-66 | an admitted request adds exactly one to every window that contains its time |
| RateLimit.RecordIsolated | supabase/functions/transcribe-audio/index.ts:42-43 | requests by other identifiers or to another endpoint never change this caller's count |
| RateLimit.TypeNotFiltered | supabase/functions/transcribe-audio/index.ts:39-44 | a user and a guest with the same identifier string share the count: whenever the guest would be allowed the user is too, a user's admitted request adds one to the count the guest's check reads, and it refuses the guest once that count reaches 3 |
| RateLimit.RecordKeepsQuota | supabase/functions/analyze-speech/index.ts:54-76 | checks at non-decreasing times never log more than the limit of rows for a caller in any hour |
| RateLimit.Replay | supabase/functions/analyze-speech/index.ts:38-77 | a sequence of checks yields one decision per check, each an admission or a refusal naming the limit |
| RateLimit.CountAcrossGap | supabase/functions/transcribe-audio/index.ts:44 | a window start moved through a stretch with no rows does not change the count |
| RateLimit.GapAfterRecord | supabase/functions/transcribe-audio/index.ts:62-66 | recording at or after the end of a row-free stretch keeps it row-free |
| RateLimit.BurstStep | supabase/functions/transcribe-audio/index.ts:54-66 | within a burst, the count goes up by one exactly when the check is allowed |
| RateLimit.BurstNext | supabase/functions/transcribe-audio/index.ts:54-66 | after the first check of a burst the rest is again a burst, with one more row in the window exactly when the check was allowed |
| RateLimit.BurstDecisions | supabase/functions/transcribe-audio/index.ts:30-69 | in a burst within one hour, the i-th check is allowed exactly when the rows already in the window plus i are below the limit |
| RateLimit.LimitThenRefuse | supabase/functions/transcribe-audio/index.ts:52-66 | from a clean hour, the first `limit` checks are allowed and the next one is refused with the message naming the limit |
| RateLimit.NoneCounted | supabase/functions/transcribe-audio/index.ts:39-44 | with no rows for the identifier and endpoint the count is zero |
| AudioValidation.ValidateAudio | supabase/functions/transcribe-audio/index.ts:11-27 | audio is valid exactly when it is a non-empty string over `[A-Za-z0-9+/=]` of at most 10,485,760 characters; every error is one of the three messages |
| AudioValidation.NonStringRejected | supabase/functions/transcribe-audio/index.ts:12-14 | a missing or non-string audio field gets the type error |
| AudioValidation.EmptyRejected | supabase/functions/transcribe-audio/index.ts:17-19 | the empty string gets the format error |
| AudioValidation.FormatCheckedBeforeSize | supabase/functions/transcribe-audio/index.ts:17-24 | a string with a character outside the alphabet gets the format error whatever its length |
| AudioValidation.SizeCeiling | supabase/functions/transcribe-audio/index.ts:22-24 | well-formed text is refused for size exactly when it is longer than the ceiling |
| AudioValidation.DecodedSizeBound | supabase/functions/transcribe-audio/index.ts:21 | accepted audio that `atob` decodes yields at most 7,864,320 bytes |
| AudioValidation.StripPadding | supabase/functions/transcribe-audio/index.ts:152 | `atob` drops at most two characters, all of them '=', and only from text whose length is a multiple of four |
| AudioValidation.AcceptedButUndecodable | supabase/functions/transcribe-audio/index.ts:11-27 | the validator accepts "A", "AB=" and "====", which `atob` cannot decode |
| AudioValidation.DecodableAccepted | supabase/functions/transcribe-audio/index.ts:11-27 | non-empty text that `atob` decodes and that fits the ceiling passes the validator |
| AudioValidation.EncoderOutputDecodable | supabase/functions/transcribe-audio/index.ts:152 | the output of a standard base64 encoder, padded or not, decodes |
| Polling.Verdict | supabase/functions/transcribe-audio/index.ts:203-214 | a single reply never forces a timeout, and a completion comes from an OK reply and carries its job |
| Polling.VerdictCases | supabase/functions/transcribe-audio/index.ts:203-214 | each kind of reply, and only it, forces its outcome: a non-OK reply the status-check error with the status, `completed` the job, `error` the service's message, anything else nothing |
| Polling.PollFrom | supabase/functions/transcribe-audio/index.ts:187-221 | after some pending replies, the outcome is a timeout whenever no check is left, and a completion always carries a job whose status is `completed` |
| Polling.PollTranscript | supabase/functions/transcribe-audio/index.ts:187-221 | the loop's outcome is the first non-pending reply's verdict; it sees at most 60 replies, all before the last pending; it times out exactly when 60 replies were pending |
| Polling.TimeoutIffAllPending | supabase/functions/transcribe-audio/index.ts:191-221 | the timeout is reported exactly when all 60 replies are pending |
| Polling.CompletedWithinBound | supabase/functions/transcribe-audio/index.ts:210-211 | a completion carries the job of a completed OK reply within the first 60, after only pending ones |
| Polling.AtMostSixtyChecks | supabase/functions/transcribe-audio/index.ts:189-191 | replies after the 60th never influence the outcome |
| Polling.SkipPending | supabase/functions/transcribe-audio/index.ts:191-220 | pending replies do not change the outcome: the loop goes on to the next check |
| Polling.FirstVerdictDecides | supabase/functions/transcribe-audio/index.ts:191-221 | the first non-pending reply within the first 60 decides the outcome |
| Polling.RemoteErrorIsNotTimeout | supabase/functions/transcribe-audio/index.ts:212-214 | an `error` status after any number of pending replies within the bound fails with the service's message and is not a timeout |
| FillerWords.LowerChar | supabase/functions/transcribe-audio/index.ts:225 | an upper-case ASCII letter becomes the lower-case letter 32 code points above it, and every other character is kept |
| FillerWords.ToLower | supabase/functions/transcribe-audio/index.ts:225 | lower-casing keeps the length and lowers each character |
| FillerWords.MatchAt | supabase/functions/transcribe-audio/index.ts:229 | `\b<w>\b` matches whole words only: a match of a word that starts with a word character is not preceded by one, and one that ends with a word character is not followed by one |
| FillerWords.Occurrences | supabase/functions/transcribe-audio/index.ts:229-231 | a word of length n has at most |s|/n non-overlapping matches |
| FillerWords.FillerCount | supabase/functions/transcribe-audio/index.ts:224-232 | the count is the sum over the seven lexicon words of their matches in the lower-cased transcript, and since every entry has at least two characters it is at most 3.5 per character |
| FillerWords.CountFillerWords | supabase/functions/transcribe-audio/index.ts:224-232 | the loop's total is the sum over the seven lexicon words of their whole-word matches in the lower-cased transcript |
| FillerWords.OccurrencesBound | supabase/functions/transcribe-audio/index.ts:229-231 | matches do not overlap: a word of length n matches at most |s|/n times |
| FillerWords.ToLowerIdempotent | supabase/functions/transcribe-audio/index.ts:225 | lower-casing twice is lower-casing once |
| FillerWords.CaseInsensitive | supabase/functions/transcribe-audio/index.ts:225-229 | a transcript and its lower-case form have the same filler count |
| FillerWords.SelfMatch | supabase/functions/transcribe-audio/index.ts:229-230 | a word that starts and ends with a word character, on its own, is matched exactly once |
| FillerWords.WholeWordCounts | supabase/functions/transcribe-audio/index.ts:224-230 | each of the seven lexicon words on its own is counted once |
| FillerWords.EmbeddedWordNotCounted | supabase/functions/transcribe-audio/index.ts:229 | "like" inside "unlike" is not counted |
| FillerWords.SkipNonMatches | supabase/functions/transcribe-audio/index.ts:230 | positions with no match do not change the count of the scan |
| FillerWords.LikeCountedOnceInSentence | supabase/functions/transcribe-audio/index.ts:224-232 | "I like pizza, unlike you" holds exactly one counted "like" |
| Words.NonSpaceEnd | supabase/functions/analyze-speech/index.ts:18 | the start of the trailing run of white space before a position |
| Words.TrimBounds | supabase/functions/analyze-speech/index.ts:18 | the leading and trailing cuts remove only white space, and unless the text is all white space they leave a non-space character at each end |
| Words.Trim | supabase/functions/analyze-speech/index.ts:18 | the result is the input with a white-space prefix and a white-space suffix cut off, it is trimmed, and it is empty exactly when the input is all white space |
| Words.TrimOfTrimmed | supabase/functions/analyze-speech/index.ts:18 | trimming a trimmed text changes nothing |
| Words.TrimPadded | supabase/functions/analyze-speech/index.ts:156 | trimming removes exactly the white space around a trimmed text |
| Words.SpaceFrom | supabase/functions/analyze-speech/index.ts:156 | the end of a run of non-space characters |
| Words.NonSpaceFrom | supabase/functions/analyze-speech/index.ts:156 | the end of a run of white space |
| Words.Split | supabase/functions/analyze-speech/index.ts:156-157 | splitting always gives at least one piece, and a text without white space is its own only piece |
| Words.VisibleAppend | supabase/functions/analyze-speech/index.ts:156 | the non-space characters of a concatenation are those of its parts |
| Words.SplitKeepsVisible | supabase/functions/analyze-speech/index.ts:156 | gluing the pieces of a split back together gives exactly the non-space characters, in order |
| Words.SplitAtRun | supabase/functions/analyze-speech/index.ts:156 | a word, a run of white space and text that starts with a non-space split into the word followed by the split of that text |
| Words.SplitInterleave | supabase/functions/analyze-speech/index.ts:156-157 | words joined by runs of white space split back into exactly those words |
| Words.SplitTrimmedIntoWords | supabase/functions/analyze-speech/index.ts:156-157 | on trimmed non-empty text, every piece is a non-empty word without white space |
| AnalysisValidation.ValidateAnalysisInput | supabase/functions/analyze-speech/index.ts:11-35 | the input is valid exactly when the transcript is a non-blank string of at most 10,000 characters, the duration a number in (0, 600] and the filler count a number in [0, 1000]; every error is one of the five messages |
| AnalysisValidation.TranscriptOk | supabase/functions/analyze-speech/index.ts:14-24 | a transcript passes exactly when it is a string that is not all white space and has at most 10,000 characters |
| AnalysisValidation.DurationOk | supabase/functions/analyze-speech/index.ts:26-28 | a passing duration is a number of at most 600, and durations below one second pass despite the message |
| AnalysisValidation.FillerCountOk | supabase/functions/analyze-speech/index.ts:30-32 | a passing filler count is a non-negative number, and fractional counts pass |
| AnalysisValidation.TranscriptErrorsFirst | supabase/functions/analyze-speech/index.ts:14-24 | transcript errors come first, in the order: not a string, blank, too long |
| AnalysisValidation.LengthCountsWhiteSpace | supabase/functions/analyze-speech/index.ts:22-24 | the length ceiling applies to the untrimmed text |
| AnalysisValidation.ValidTranscriptHasWords | supabase/functions/analyze-speech/index.ts:156-161 | a validated transcript splits into at least one non-empty word, so the filler ratio never divides by zero |
| Metrics.Round | supabase/functions/analyze-speech/index.ts:158 | the rounded value lies within one half of the input, halves rounding up |
| Metrics.WordCount | supabase/functions/analyze-speech/index.ts:156-157 | the word count is at least 1 |
| Metrics.WordCountOfSpacedWords | supabase/functions/analyze-speech/index.ts:156-157 | the word count of words joined and surrounded by any white space is the number of words |
| Metrics.SpeechRate | supabase/functions/analyze-speech/index.ts:158 | the speech rate is non-negative and within one half of the words per minute |
| Metrics.RawFluency | supabase/functions/analyze-speech/index.ts:160-163 | with a non-negative filler count the unclamped score is at most 100, and equals 100 exactly when there are no fillers and the pace is 150 words per minute |
| Metrics.FluencyScore | supabase/functions/analyze-speech/index.ts:161-164 | the score lies in [0, 100]: it equals the raw formula whenever that does, 0 below it and 100 above it |
| Metrics.RoundMonotone | supabase/functions/analyze-speech/index.ts:251 | rounding preserves order |
| Metrics.ReportedFluency | supabase/functions/analyze-speech/index.ts:251 | the reported score is an integer in [0, 100] |
| Metrics.IdealDeliveryScoresFull | supabase/functions/analyze-speech/index.ts:161-164 | no filler words at 150 words per minute scores 100 |
| Metrics.FluencyAntitoneInFillers | supabase/functions/analyze-speech/index.ts:161-163 | more filler words never raise the score, before or after rounding |
| Metrics.FluencyAntitoneInPaceError | supabase/functions/analyze-speech/index.ts:163 | a pace further from 150 words per minute never raises the score |
| Metrics.WorkedExample | supabase/functions/analyze-speech/index.ts:156-164 | 11 words in 10 s with 3 fillers give 66 words per minute and a score of 70 |
| Feedback.ClassifyGateway | supabase/functions/analyze-speech/index.ts:205-221 | a 2xx proceeds; 429 and 402 are passed on with their own status; every other status is thrown |
| Feedback.GatewayStatusMapping | supabase/functions/analyze-speech/index.ts:205-271 | a failed gateway call answers 429 for 429, 402 for 402 and 500 for anything else |
| Feedback.FailureStatus | supabase/functions/analyze-speech/index.ts:205-271 | a gateway error passed on keeps its own status, and a thrown one is caught as a 500 |
| Feedback.JsonStrings | supabase/functions/analyze-speech/index.ts:234-245 | a list of texts becomes a JSON array of the same strings |
| Feedback.FallbackFeedback | supabase/functions/analyze-speech/index.ts:234-245 | the fallback is an object with exactly the keys `delivery` and `content` |
| Feedback.ChooseFeedback | supabase/functions/analyze-speech/index.ts:229-246 | parsed JSON is returned as it is; otherwise the fallback, which is well-formed feedback |
| Feedback.FallbackHasThreeAndThree | supabase/functions/analyze-speech/index.ts:234-245 | the fallback has three delivery and three content strings |
| Feedback.FeedbackWellFormedWhenModelComplies | supabase/functions/analyze-speech/index.ts:229-246 | when the model returns well-formed feedback, the answer is well-formed on either path |
| AnalyzeEndpoint.AnalyzeAdmitted | supabase/functions/analyze-speech/index.ts:135-271 | an admitted request answers 200, 400, 402, 429 or 500; 400 exactly for invalid input; a 200 carries a score in [0, 100] and at least one word; a valid input's status follows the gateway classification |
| AnalyzeEndpoint.SuccessMetrics | supabase/functions/analyze-speech/index.ts:155-256 | a successful answer reports the word count, rate, filler count and score the formulas give |
| AnalyzeEndpoint.UnparseableReplyUsesFallback | supabase/functions/analyze-speech/index.ts:229-246 | a model reply that is not JSON still gives 200 with the fallback feedback |
| AnalyzeEndpoint.AnalyzeSpeech | supabase/functions/analyze-speech/index.ts:79-133 | without configuration a 500 and no log change; a refusal gives 429 with the limiter's message; otherwise the admitted answer, with the log grown by one row, checked before the body is read |
| TranscribeEndpoint.Failure | supabase/functions/transcribe-audio/index.ts:254-265 | a caught error answers 500 with its message and the fixed details |
| TranscribeEndpoint.AdmittedResponse | supabase/functions/transcribe-audio/index.ts:127-266 | an admitted request answers 200, 400 or 500; 400 exactly for invalid audio; valid audio that `atob` rejects answers the decode error; 200 exactly when the audio is valid and decodable, both service calls succeed and the poll completes, carrying the job's text, its filler count and word count; every 500 carries the fixed details |
| TranscribeEndpoint.SingleCharacterAudioFails | supabase/functions/transcribe-audio/index.ts:128-158 | audio "A" passes validation and still fails with the decode error, whatever the speech-to-text service would answer |
| TranscribeEndpoint.TranscribeAdmitted | supabase/functions/transcribe-audio/index.ts:127-266 | the response is the admitted response; an unreadable body, undecodable audio, a failed upload and a failed submission each give their own error; audio is uploaded exactly when valid and decodable; status checks happen exactly when both calls succeeded, at most 60, and a timeout is exactly 60 checks |
| TranscribeEndpoint.TranscribeAudio | supabase/functions/transcribe-audio/index.ts:71-266 | without configuration a 500; a refusal gives 429 with the limiter's message; otherwise the admitted response, with the rate-limit slot used before the audio is validated; invalid audio answers 400 and undecodable audio the decode error |
| Storage.Contents | src/lib/storage.ts:30-38 | a missing, empty or unparseable value reads as the empty list |
| Storage.FindIndex | src/lib/storage.ts:43 | the first index with the id, or -1 exactly when no scenario has it |
| Storage.Upsert | src/lib/storage.ts:42-49 | the saved scenario is in the result, which is the input's length or one longer |
| Storage.RemoveId | src/lib/storage.ts:60 | the result keeps exactly the scenarios whose id differs and is no longer than the input |
| Storage.FindSession | src/lib/storage.ts:91 | the first session with the id, or None exactly when there is none |
| Storage.UpsertPlacement | src/lib/storage.ts:42-49 | an existing id is replaced at the index of its first occurrence with the length unchanged; a new id is appended |
| Storage.UpsertContents | src/lib/storage.ts:42-49 | the saved scenario is present, scenarios with other ids keep their index, and nothing else is new |
| Storage.UpsertKeepsIdsDistinct | src/lib/storage.ts:42-49 | saving keeps scenario ids distinct |
| Storage.UpsertIdempotent | src/lib/storage.ts:42-51 | saving the same scenario twice equals saving it once |
| Storage.RemoveIdAppend | src/lib/storage.ts:60 | deletion distributes over concatenation, so the kept scenarios keep their order |
| Storage.RemoveIdSingle | src/lib/storage.ts:60 | one scenario survives exactly when its id differs |
| Storage.RemoveIdNoMatch | src/lib/storage.ts:60 | deleting an absent id changes nothing |
| Storage.RemoveIdIdempotent | src/lib/storage.ts:59-61 | deleting twice equals deleting once |
| Storage.DeleteAfterSave | src/lib/storage.ts:40-65 | deleting a scenario's id after saving it gives the same list as deleting that id before the save |
| Storage.NewestSessionWins | src/lib/storage.ts:78-91 | after a session is prepended its id finds it, and every other id is found as before |
| Storage.LocalStore.constructor | src/lib/storage.ts:26-27 | both keys start empty |
| Storage.LocalStore.GetScenarios | src/lib/storage.ts:30-38 | empty when nothing readable is stored |
| Storage.LocalStore.GetSessions | src/lib/storage.ts:68-76 | empty when nothing readable is stored |
| Storage.LocalStore.GetSessionById | src/lib/storage.ts:88-96 | a found session has the id and is stored; None exactly when no stored session has it |
| Storage.LocalStore.SaveScenario | src/lib/storage.ts:40-55 | the scenario list becomes the upsert of the list read; a failed write changes nothing; the sessions are untouched |
| Storage.LocalStore.DeleteScenario | src/lib/storage.ts:57-65 | the scenario list becomes the list read without that id; a failed write changes nothing |
| Storage.LocalStore.SaveSession | src/lib/storage.ts:78-86 | the session list becomes the new session followed by the list read, and the id then finds it; a failed write changes nothing |

## Left out

- CORS headers, the `OPTIONS` pre-flight and `serve` are transport plumbing. The environment-variable check is the boolean `configured`.
- The HTTP calls to the speech-to-text service, the language-model gateway and the auth provider are parameters, because their behaviour is not in this repository. So are the database queries, the clock and `localStorage`.
- The five-second wait between polls is not modelled, because the model has no time between status replies.
- The race between the count query and the insert under concurrent requests is left out; the model runs one request at a time.
- The count query's `requested_at` column is filled in by the database; the model takes it to be the time of the check.
- JSON numbers are exact reals instead of IEEE doubles, in the validation bounds as well as the fluency computation: a duration such as `600.00000000000000001`, which parses to the double 600 and passes, is rejected by the model. `Math.round` is floor(x + 1/2).
- `toLowerCase` is modelled on ASCII letters only, and `\b` uses the ASCII word characters. Lengths count characters, not UTF-16 code units.
- The bytes `atob` produces are not modelled, only whether it decodes the text (`AudioValidation.Decodable`). The message of its exception is the runtime's; the model uses a fixed text, `DecodeError`.
- The gateway's response envelope (`data.choices[0].message.content`) is taken as the text `content` of `GatewayReply`. A malformed envelope throws, which would be a 500; that is not modelled.
- The message of a runtime exception other than the ones the handlers throw is not modelled, for example a malformed job reply or a body that is not JSON. Those cases answer 500 with a fixed message.
- Logging (`console.log`, `console.error`) has no effect on results and is left out.
- Storage.LocalStore: a stored value that parses to JSON other than an array (for example `null`) is not modelled. `getScenarios` would return it as it is, and the other operations would throw and be caught.
- Storage.FindSession: the `catch` in `getSessionById` only fires for stored entries that are not objects, which the model's typed lists cannot hold.
