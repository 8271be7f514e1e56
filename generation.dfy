/** The generation client's attempt loop: up to five attempts, exponential
    backoff between them, cancellation ending the loop with no result, and the
    last caught failure rethrown.

    The network call, the per-attempt timeout and the sleep are replaced by
    their outcomes: each attempt is given as an `AttemptOutcome`, and the loop
    returns the delays it would have slept. The try block *returns* the raced
    promise without awaiting it, so the catch block sees only errors thrown
    before that return; a rejection of the race (a timeout, an API error, a
    response without image data) settles the call directly. `awaitsRace`
    selects that behaviour (`false`) or the awaited one (`true`), in which the
    catch block also sees the rejections of the race. */
module Generation {
  import opened Js
  import Request
  import Response
  import DataUri

  const TimeoutMs := 193333
  const MaxRetries := 5
  const BaseDelay := 1233

  const AbortErrorName := "AbortError"

  /** The rejection of the per-attempt timeout, `TimeoutMs` milliseconds after
      the attempt starts (the `TimedOut` outcome). */
  const TimeoutError := Error("Error", "timeout")

  /** How the race between the model call and the timeout settles. */
  datatype RaceOutcome =
    | Responded(res: Response.GenerateContentResponse)
    | ApiFailed(error: Error)
    | TimedOut

  /** What one pass through the try block does: reach the `return` of the
      raced promise, or throw before reaching it. */
  datatype AttemptOutcome = Returned(race: RaceOutcome) | Threw(error: Error)

  /** How the call settles; `Fulfilled(None)` is `undefined`. */
  datatype GenResult = Fulfilled(value: Option<string>) | Rejected(error: Error)

  /** The settlement of the raced promise, including the normalisation in its `.then`. */
  function Settle(race: RaceOutcome, imageOutput: bool): (r: GenResult)
    ensures race.TimedOut? ==> r == Rejected(TimeoutError)
    ensures race.ApiFailed? ==> r == Rejected(race.error)
    ensures race.Responded? && imageOutput && Response.ImageOf(race.res).None? ==> r == Rejected(Response.NoImageError)
    ensures race.Responded? && !imageOutput ==> r == Fulfilled(race.res.text)
    ensures race.Responded? && imageOutput && Response.ImageOf(race.res).Some? ==>
      r == Fulfilled(Some(DataUri.Build(Response.ImageOf(race.res).value.mimeType, Response.ImageOf(race.res).value.data)))
  {
    match race
    case TimedOut => Rejected(TimeoutError)
    case ApiFailed(e) => Rejected(e)
    case Responded(res) =>
      match Response.Normalize(res, imageOutput)
      case Ok(v) => Fulfilled(v)
      case Err(e) => Rejected(e)
  }

  /** The error the catch block receives on an attempt, if any. */
  function Caught(o: AttemptOutcome, imageOutput: bool, awaitsRace: bool): (r: Option<Error>)
    ensures o.Threw? ==> r == Some(o.error)
    ensures o.Returned? && !awaitsRace ==> r.None?
    ensures o.Returned? && awaitsRace ==> (r.Some? <==> Settle(o.race, imageOutput).Rejected?)
    ensures o.Returned? && awaitsRace && r.Some? ==> r.value == Settle(o.race, imageOutput).error
  {
    match o
    case Threw(e) => Some(e)
    case Returned(race) =>
      if awaitsRace && Settle(race, imageOutput).Rejected? then Some(Settle(race, imageOutput).error) else None
  }

  /** An attempt after which the loop sleeps and tries again (unless it was the last). */
  predicate Retries(o: AttemptOutcome, imageOutput: bool, awaitsRace: bool) {
    var e := Caught(o, imageOutput, awaitsRace);
    e.Some? && e.value.name != AbortErrorName
  }

  /** The attempt on which the loop ends, searching from attempt `from`: the
      first that does not retry, or the last one. */
  function StopFrom(outcomes: seq<AttemptOutcome>, imageOutput: bool, awaitsRace: bool, from: nat): (r: nat)
    requires |outcomes| >= MaxRetries && from < MaxRetries
    ensures from <= r < MaxRetries
    ensures forall i :: from <= i < r ==> Retries(outcomes[i], imageOutput, awaitsRace)
    ensures r < MaxRetries - 1 ==> !Retries(outcomes[r], imageOutput, awaitsRace)
    decreases MaxRetries - from
  {
    if from == MaxRetries - 1 || !Retries(outcomes[from], imageOutput, awaitsRace) then from
    else StopFrom(outcomes, imageOutput, awaitsRace, from + 1)
  }

  /** One step of the search: it stops at `from` or goes on from the next attempt. */
  lemma StopFromStep(outcomes: seq<AttemptOutcome>, imageOutput: bool, awaitsRace: bool, from: nat)
    requires |outcomes| >= MaxRetries && from < MaxRetries
    ensures from == MaxRetries - 1 || !Retries(outcomes[from], imageOutput, awaitsRace) ==>
      StopFrom(outcomes, imageOutput, awaitsRace, from) == from
    ensures from < MaxRetries - 1 && Retries(outcomes[from], imageOutput, awaitsRace) ==>
      StopFrom(outcomes, imageOutput, awaitsRace, from) == StopFrom(outcomes, imageOutput, awaitsRace, from + 1)
  {
  }

  function LastAttempt(outcomes: seq<AttemptOutcome>, imageOutput: bool, awaitsRace: bool): nat
    requires |outcomes| >= MaxRetries
  {
    StopFrom(outcomes, imageOutput, awaitsRace, 0)
  }

  /** How the call settles when the loop ends on attempt outcome `o`: the
      race's own settlement if the catch block saw nothing, no result for a
      cancellation, and otherwise the caught error rethrown. */
  function Final(o: AttemptOutcome, imageOutput: bool, awaitsRace: bool): (r: GenResult)
    ensures o.Threw? ==> r == if o.error.name == AbortErrorName then Fulfilled(None) else Rejected(o.error)
    ensures o.Returned? && !awaitsRace ==> r == Settle(o.race, imageOutput)
    ensures o.Returned? && Settle(o.race, imageOutput).Fulfilled? ==> r == Settle(o.race, imageOutput)
    ensures o.Returned? && awaitsRace && Settle(o.race, imageOutput).Rejected? ==>
      r == if Settle(o.race, imageOutput).error.name == AbortErrorName then Fulfilled(None) else Settle(o.race, imageOutput)
  {
    match Caught(o, imageOutput, awaitsRace)
    case None => Settle(o.race, imageOutput)
    case Some(e) => if e.name == AbortErrorName then Fulfilled(None) else Rejected(e)
  }

  function Pow2(n: nat): nat {
    if n == 0 then 1 else 2 * Pow2(n - 1)
  }

  /** The sleep after failed attempt `attempt`, counted from 0. */
  function Delay(attempt: nat): (r: nat)
  {
    BaseDelay * Pow2(attempt)
  }

  /** The sleeps taken before attempts 1 .. n. */
  function Backoffs(n: nat): (r: seq<nat>)
    ensures |r| == n
    ensures forall i :: 0 <= i < n ==> r[i] == Delay(i)
  {
    if n == 0 then [] else Backoffs(n - 1) + [Delay(n - 1)]
  }

  /** What the catch block makes of one attempt, in terms of `Final`. */
  lemma FinalOfAttempt(o: AttemptOutcome, imageOutput: bool, awaitsRace: bool)
    ensures Caught(o, imageOutput, awaitsRace).None? ==> Final(o, imageOutput, awaitsRace) == Settle(o.race, imageOutput)
    ensures Caught(o, imageOutput, awaitsRace).Some? && Caught(o, imageOutput, awaitsRace).value.name == AbortErrorName ==>
      Final(o, imageOutput, awaitsRace) == Fulfilled(None)
    ensures Caught(o, imageOutput, awaitsRace).Some? && Caught(o, imageOutput, awaitsRace).value.name != AbortErrorName ==>
      Final(o, imageOutput, awaitsRace) == Rejected(Caught(o, imageOutput, awaitsRace).value)
      && Retries(o, imageOutput, awaitsRace)
  {
  }

  /** Runs the attempt loop over the given attempt outcomes. Returns how the
      call settles, the delays slept and the number of attempts made. Of the
      request only `imageOutput` matters here: the rest goes into the API call,
      whose outcome is given. */
  method Generate(req: Request.GenerationRequest, outcomes: seq<AttemptOutcome>, awaitsRace: bool)
    returns (result: GenResult, delays: seq<nat>, attempts: nat)
    requires |outcomes| >= MaxRetries
    ensures 1 <= attempts <= MaxRetries
    ensures attempts == LastAttempt(outcomes, req.imageOutput, awaitsRace) + 1
    ensures forall i :: 0 <= i < attempts - 1 ==> Retries(outcomes[i], req.imageOutput, awaitsRace)
    ensures delays == Backoffs(attempts - 1)
    ensures result == Final(outcomes[attempts - 1], req.imageOutput, awaitsRace)
  {
    var attempt := 0;
    delays := [];
    while attempt < MaxRetries
      invariant attempt < MaxRetries
      invariant forall i :: 0 <= i < attempt ==> Retries(outcomes[i], req.imageOutput, awaitsRace)
      invariant StopFrom(outcomes, req.imageOutput, awaitsRace, attempt) == LastAttempt(outcomes, req.imageOutput, awaitsRace)
      invariant delays == Backoffs(attempt)
      decreases MaxRetries - attempt
    {
      var o := outcomes[attempt];
      StopFromStep(outcomes, req.imageOutput, awaitsRace, attempt);
      FinalOfAttempt(o, req.imageOutput, awaitsRace);
      var caught := Caught(o, req.imageOutput, awaitsRace);
      if caught.None? {
        result, attempts := Settle(o.race, req.imageOutput), attempt + 1;
        return;
      }
      var error := caught.value;
      if error.name == AbortErrorName {
        result, attempts := Fulfilled(None), attempt + 1;
        return;
      }
      if attempt == MaxRetries - 1 {
        result, attempts := Rejected(error), attempt + 1;
        return;
      }
      delays := delays + [Delay(attempt)];
      attempt := attempt + 1;
    }
    assert false;
  }

  /** The loop ends on attempt k exactly when every earlier attempt retried and
      attempt k does not retry or is the last. */
  lemma {:induction false} LastAttemptIs(outcomes: seq<AttemptOutcome>, imageOutput: bool, awaitsRace: bool, k: nat)
    requires |outcomes| >= MaxRetries && k < MaxRetries
    requires forall i :: 0 <= i < k ==> Retries(outcomes[i], imageOutput, awaitsRace)
    requires k == MaxRetries - 1 || !Retries(outcomes[k], imageOutput, awaitsRace)
    ensures LastAttempt(outcomes, imageOutput, awaitsRace) == k
  {
  }

  /** The delays double from 1233 ms: 1233, 2466, 4932 and 9864 ms before
      attempts 2 to 5, 18495 ms in all. */
  lemma BackoffSchedule()
    ensures Backoffs(MaxRetries - 1) == [1233, 2466, 4932, 9864]
    ensures forall i: nat :: Delay(i + 1) == 2 * Delay(i)
    ensures Sum(Backoffs(MaxRetries - 1)) == 18495
  {
    var b := Backoffs(4);
    assert b == [1233, 2466, 4932, 9864];
    assert b[1..] == [2466, 4932, 9864] && b[2..] == [4932, 9864] && b[3..] == [9864];
    assert Sum(b[3..]) == 9864 by { assert b[3..][1..] == []; }
  }

  function Sum(s: seq<nat>): nat {
    if s == [] then 0 else s[0] + Sum(s[1..])
  }

  /** Four caught failures and then a response: the response's value is
      returned after sleeping 1233, 2466, 4932 and 9864 ms. */
  lemma CaughtFailuresThenSuccess(outcomes: seq<AttemptOutcome>, imageOutput: bool, awaitsRace: bool,
                                  res: Response.GenerateContentResponse, v: Option<string>)
    requires |outcomes| == MaxRetries
    requires forall i :: 0 <= i < MaxRetries - 1 ==> outcomes[i].Threw? && outcomes[i].error.name != AbortErrorName
    requires outcomes[MaxRetries - 1] == Returned(Responded(res))
    requires Response.Normalize(res, imageOutput) == Ok(v)
    ensures LastAttempt(outcomes, imageOutput, awaitsRace) == MaxRetries - 1
    ensures Final(outcomes[MaxRetries - 1], imageOutput, awaitsRace) == Fulfilled(v)
    ensures Backoffs(MaxRetries - 1) == [1233, 2466, 4932, 9864]
  {
    LastAttemptIs(outcomes, imageOutput, awaitsRace, MaxRetries - 1);
    BackoffSchedule();
  }

  /** When every attempt ends in a caught failure other than a cancellation,
      the loop makes all five attempts and rethrows the last error unchanged. */
  lemma LastCaughtFailureRethrown(outcomes: seq<AttemptOutcome>, imageOutput: bool, awaitsRace: bool)
    requires |outcomes| >= MaxRetries
    requires forall i :: 0 <= i < MaxRetries ==> Retries(outcomes[i], imageOutput, awaitsRace)
    ensures LastAttempt(outcomes, imageOutput, awaitsRace) == MaxRetries - 1
    ensures var e := Caught(outcomes[MaxRetries - 1], imageOutput, awaitsRace);
            e.Some? && Final(outcomes[MaxRetries - 1], imageOutput, awaitsRace) == Rejected(e.value)
  {
    LastAttemptIs(outcomes, imageOutput, awaitsRace, MaxRetries - 1);
  }

  /** A caught cancellation on any attempt ends the loop there, with no result;
      by `Generate`'s contract no sleep follows it. */
  lemma CancellationEndsLoop(outcomes: seq<AttemptOutcome>, imageOutput: bool, awaitsRace: bool, k: nat)
    requires |outcomes| >= MaxRetries && k < MaxRetries
    requires forall i :: 0 <= i < k ==> Retries(outcomes[i], imageOutput, awaitsRace)
    requires Caught(outcomes[k], imageOutput, awaitsRace).Some?
    requires Caught(outcomes[k], imageOutput, awaitsRace).value.name == AbortErrorName
    ensures LastAttempt(outcomes, imageOutput, awaitsRace) == k
    ensures Final(outcomes[k], imageOutput, awaitsRace) == Fulfilled(None)
  {
    LastAttemptIs(outcomes, imageOutput, awaitsRace, k);
  }

  /** As written, the first attempt that reaches the `return` ends the loop
      and the call settles as the race does: only errors thrown before the
      return are ever retried. */
  lemma ReturnedRaceSettlesCall(outcomes: seq<AttemptOutcome>, imageOutput: bool, k: nat)
    requires |outcomes| >= MaxRetries && k < MaxRetries
    requires forall i :: 0 <= i < k ==> Retries(outcomes[i], imageOutput, false)
    requires outcomes[k].Returned?
    ensures LastAttempt(outcomes, imageOutput, false) == k
    ensures Final(outcomes[k], imageOutput, false) == Settle(outcomes[k].race, imageOutput)
    ensures forall i :: 0 <= i < k ==> outcomes[i].Threw?
  {
    LastAttemptIs(outcomes, imageOutput, false, k);
  }

  /** As written, a first attempt that times out ends the loop there (so, by
      `Generate`'s contract, after one attempt and no sleep) and rejects the
      call with the timeout error. */
  lemma TimeoutEscapesRetry(outcomes: seq<AttemptOutcome>, imageOutput: bool)
    requires |outcomes| >= MaxRetries
    requires outcomes[0] == Returned(TimedOut)
    ensures LastAttempt(outcomes, imageOutput, false) == 0
    ensures Final(outcomes[0], imageOutput, false) == Rejected(TimeoutError)
  {
    LastAttemptIs(outcomes, imageOutput, false, 0);
  }

  /** As written, a first response without image data in image mode ends the
      loop there too, and rejects the call with "No image data in response". */
  lemma MissingImageEscapesRetry(outcomes: seq<AttemptOutcome>, res: Response.GenerateContentResponse)
    requires |outcomes| >= MaxRetries
    requires outcomes[0] == Returned(Responded(res))
    requires Response.ImageOf(res).None?
    ensures LastAttempt(outcomes, true, false) == 0
    ensures Final(outcomes[0], true, false) == Rejected(Response.NoImageError)
  {
    LastAttemptIs(outcomes, true, false, 0);
  }

  /** With the race awaited, an attempt that times out is retried like any
      other failure: five timeouts make five attempts, sleep 1233, 2466, 4932
      and 9864 ms, and reject with the timeout error. */
  lemma TimeoutRetriedWhenAwaited(outcomes: seq<AttemptOutcome>, imageOutput: bool)
    requires |outcomes| >= MaxRetries
    requires forall i :: 0 <= i < MaxRetries ==> outcomes[i] == Returned(TimedOut)
    ensures LastAttempt(outcomes, imageOutput, true) == MaxRetries - 1
    ensures Final(outcomes[MaxRetries - 1], imageOutput, true) == Rejected(TimeoutError)
    ensures Backoffs(MaxRetries - 1) == [1233, 2466, 4932, 9864]
  {
    LastAttemptIs(outcomes, imageOutput, true, MaxRetries - 1);
    BackoffSchedule();
  }

  /** With the race awaited, a response without image data is retried and a
      later response with an image is returned. */
  lemma MissingImageRetriedWhenAwaited(outcomes: seq<AttemptOutcome>,
                                       bad: Response.GenerateContentResponse,
                                       good: Response.GenerateContentResponse)
    requires |outcomes| >= MaxRetries
    requires outcomes[0] == Returned(Responded(bad)) && Response.ImageOf(bad).None?
    requires outcomes[1] == Returned(Responded(good)) && Response.ImageOf(good).Some?
    ensures LastAttempt(outcomes, true, true) == 1
    ensures Final(outcomes[1], true, true) == Fulfilled(Response.Normalize(good, true).value)
    ensures Backoffs(1) == [BaseDelay]
  {
    LastAttemptIs(outcomes, true, true, 1);
  }
}
