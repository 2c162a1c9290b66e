/** Step 3 of the transcription endpoint: poll the speech-to-text job
    every five seconds, at most 60 times. A `completed` job ends the loop,
    an `error` job or a failed status request ends the request with an
    error, and 60 pending replies end it with a timeout. The status
    service is the parameter `check`: `check(n)` is the reply to the
    (n+1)-th status request. */
module Polling {
  import opened Common
  import Decimal

  const MaxAttempts: nat := 60

  /** The fields of a job status reply the endpoint reads. `wordCount` is
      `words?.length || 0`. */
  datatype Job = Job(status: string, text: string, error: string, wordCount: nat, duration: real, confidence: real)

  datatype StatusReply = StatusReply(httpStatus: int, job: Job)

  datatype PollOutcome =
    | Completed(job: Job)
    | RemoteError(message: string)
    | CheckFailed(message: string)
    | TimedOut

  /** The outcome a single reply forces, or None while the job is pending
      (`queued`, `processing` or any other status). */
  function Verdict(reply: StatusReply): (v: Option<PollOutcome>)
    ensures v.Some? ==> !v.value.TimedOut?
    ensures v.Some? && v.value.Completed? ==> HttpOk(reply.httpStatus) && v.value.job == reply.job
  {
    if !HttpOk(reply.httpStatus) then
      Some(CheckFailed("Failed to check status: " + Decimal.IntToString(reply.httpStatus)))
    else if reply.job.status == "completed" then Some(Completed(reply.job))
    else if reply.job.status == "error" then Some(RemoteError("Transcription failed: " + reply.job.error))
    else None
  }

  /** Each kind of reply, and only that kind, forces its outcome: a failed
      status request, a completed job, a job in error, or a pending job. */
  lemma VerdictCases(reply: StatusReply)
    ensures !HttpOk(reply.httpStatus) <==>
              Verdict(reply) == Some(CheckFailed("Failed to check status: " + Decimal.IntToString(reply.httpStatus)))
    ensures HttpOk(reply.httpStatus) && reply.job.status == "completed" <==> Verdict(reply) == Some(Completed(reply.job))
    ensures HttpOk(reply.httpStatus) && reply.job.status == "error" <==>
              Verdict(reply) == Some(RemoteError("Transcription failed: " + reply.job.error))
    ensures HttpOk(reply.httpStatus) && reply.job.status != "completed" && reply.job.status != "error" <==> Verdict(reply) == None
  {
  }

  /** A reply that lets the loop go on: the job is neither completed nor
      in error. */
  predicate Pending(reply: StatusReply) {
    HttpOk(reply.httpStatus) && reply.job.status != "completed" && reply.job.status != "error"
  }

  /** The outcome of the loop once `attempts` pending replies have been seen. */
  function PollFrom(check: nat -> StatusReply, attempts: nat): (r: PollOutcome)
    ensures r != TimedOut ==> attempts < MaxAttempts
    ensures r.Completed? ==> r.job.status == "completed"
    decreases MaxAttempts - attempts
  {
    if attempts >= MaxAttempts then TimedOut
    else match Verdict(check(attempts))
      case Some(outcome) => outcome
      case None => PollFrom(check, attempts + 1)
  }

  /** One step of the loop: a reply that forces an outcome ends it, a
      pending one moves on to the next check. */
  lemma PollStep(check: nat -> StatusReply, attempts: nat)
    requires attempts < MaxAttempts
    ensures Verdict(check(attempts)).Some? ==> PollFrom(check, attempts) == Verdict(check(attempts)).value
    ensures Verdict(check(attempts)).None? ==> PollFrom(check, attempts) == PollFrom(check, attempts + 1)
  {
  }

  /** The first `n` replies are all pending. */
  predicate PendingUpTo(check: nat -> StatusReply, n: nat) {
    forall k :: 0 <= k < n ==> Pending(check(k))
  }

  lemma PendingUpToStep(check: nat -> StatusReply, n: nat)
    requires PendingUpTo(check, n) && Pending(check(n))
    ensures PendingUpTo(check, n + 1)
  {
  }

  /** Leaving the loop on a reply that forces an outcome: that outcome is
      the loop's, and it is not the timeout. */
  lemma PollExit(check: nat -> StatusReply, attempts: nat, outcome: PollOutcome)
    requires attempts < MaxAttempts
    requires PollFrom(check, attempts) == PollFrom(check, 0)
    requires Verdict(check(attempts)) == Some(outcome)
    ensures outcome == PollFrom(check, 0) && outcome != TimedOut
  {
    PollStep(check, attempts);
  }

  /** The polling `while` loop. `attempts` is the source's counter: the
      number of pending replies seen before the loop ended. */
  method PollTranscript(check: nat -> StatusReply) returns (outcome: PollOutcome, attempts: nat)
    ensures outcome == PollFrom(check, 0)
    ensures attempts <= MaxAttempts
    ensures forall k :: 0 <= k < attempts ==> Pending(check(k))
    ensures outcome == TimedOut <==> attempts == MaxAttempts
    ensures attempts < MaxAttempts ==> Verdict(check(attempts)) == Some(outcome)
  {
    var transcript: Option<Job> := None;
    attempts := 0;
    while attempts < MaxAttempts
      invariant attempts <= MaxAttempts
      invariant PollFrom(check, attempts) == PollFrom(check, 0)
      invariant PendingUpTo(check, attempts)
    {
      var reply := check(attempts);
      if !HttpOk(reply.httpStatus) {
        outcome := CheckFailed("Failed to check status: " + Decimal.IntToString(reply.httpStatus));
        PollExit(check, attempts, outcome);
        return outcome, attempts;
      }
      if reply.job.status == "completed" {
        transcript := Some(reply.job);
        PollExit(check, attempts, Completed(reply.job));
        break;
      } else if reply.job.status == "error" {
        outcome := RemoteError("Transcription failed: " + reply.job.error);
        PollExit(check, attempts, outcome);
        return outcome, attempts;
      }
      PollStep(check, attempts);
      PendingUpToStep(check, attempts);
      attempts := attempts + 1;
    }
    if attempts >= MaxAttempts {
      return TimedOut, attempts;
    }
    outcome := Completed(transcript.value);
  }

  /** The timeout is reported exactly when all 60 replies are pending. */
  lemma {:induction false} TimeoutIffAllPending(check: nat -> StatusReply, from: nat)
    requires from <= MaxAttempts
    ensures PollFrom(check, from) == TimedOut <==> forall k :: from <= k < MaxAttempts ==> Pending(check(k))
    decreases MaxAttempts - from
  {
    if from < MaxAttempts {
      TimeoutIffAllPending(check, from + 1);
    }
  }

  /** A completed outcome carries the job of the first non-pending reply,
      which came within the first 60 checks. */
  lemma {:induction false} CompletedWithinBound(check: nat -> StatusReply, from: nat)
    requires PollFrom(check, from).Completed?
    ensures exists n :: from <= n < MaxAttempts && check(n).job == PollFrom(check, from).job
              && check(n).job.status == "completed" && HttpOk(check(n).httpStatus)
              && forall k :: from <= k < n ==> Pending(check(k))
    decreases MaxAttempts - from
  {
    assert from < MaxAttempts;
    PollStep(check, from);
    var v := Verdict(check(from));
    if v.None? {
      CompletedWithinBound(check, from + 1);
      var n :| from + 1 <= n < MaxAttempts && check(n).job == PollFrom(check, from + 1).job
                && check(n).job.status == "completed" && HttpOk(check(n).httpStatus)
                && forall k :: from + 1 <= k < n ==> Pending(check(k));
      assert forall k :: from <= k < n ==> Pending(check(k));
    } else {
      VerdictCases(check(from));
      assert check(from).job == PollFrom(check, from).job;
    }
  }

  /** Only the first 60 replies matter: the loop never makes a 61st check. */
  lemma {:induction false} AtMostSixtyChecks(check: nat -> StatusReply, check': nat -> StatusReply, from: nat)
    requires forall k :: from <= k < MaxAttempts ==> check(k) == check'(k)
    ensures PollFrom(check, from) == PollFrom(check', from)
    decreases MaxAttempts - from
  {
    if from < MaxAttempts {
      AtMostSixtyChecks(check, check', from + 1);
    }
  }

  /** Pending replies are skipped: the loop goes on to the next check. */
  lemma {:induction false} SkipPending(check: nat -> StatusReply, from: nat, n: nat)
    requires from <= n <= MaxAttempts
    requires forall k :: from <= k < n ==> Pending(check(k))
    ensures PollFrom(check, from) == PollFrom(check, n)
    decreases n - from
  {
    if from < n {
      SkipPending(check, from + 1, n);
    }
  }

  /** The first reply within the bound that is not pending decides the
      outcome of the loop. */
  lemma FirstVerdictDecides(check: nat -> StatusReply, n: nat)
    requires n < MaxAttempts
    requires forall k :: 0 <= k < n ==> Pending(check(k))
    requires Verdict(check(n)).Some?
    ensures PollFrom(check, 0) == Verdict(check(n)).value
  {
    SkipPending(check, 0, n);
  }

  /** A remote `error` status, after any number of pending replies within
      the bound, is reported with the service's message and is never
      confused with the timeout. */
  lemma RemoteErrorIsNotTimeout(check: nat -> StatusReply, n: nat)
    requires n < MaxAttempts
    requires forall k :: 0 <= k < n ==> Pending(check(k))
    requires HttpOk(check(n).httpStatus) && check(n).job.status == "error"
    ensures PollFrom(check, 0) == RemoteError("Transcription failed: " + check(n).job.error)
    ensures PollFrom(check, 0) != TimedOut
  {
    FirstVerdictDecides(check, n);
  }
}
