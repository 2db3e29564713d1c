/**
 * `retry_gemini_request`: up to `retries` calls to the model with the same
 * prompt; the first call that answers ends the loop, and each call that raises
 * is followed by a sleep of 2^attempt seconds. When every call has raised, the
 * loop raises HTTP 500.
 *
 * The remote call is the function `respond`: `respond(prompt, k)` is what the
 * call numbered k (from 0) does with that prompt. Sleeping is recorded, not
 * performed: the method returns the ghost list of the delays it would sleep.
 */
module Retry {
  import opened Wrappers
  import opened Http
  import opened Prompt

  /** The response object `generate_content` returns; reading `.text` may raise, which is `None`. */
  datatype Reply = Reply(text: Option<string>)

  /** One call to the model: it answers, or it raises. */
  datatype Attempt = Answered(reply: Reply) | Raised

  /** The default of the `retries` parameter, the value `analyze_resume` uses. */
  const DefaultRetries: int := 3

  const Unavailable := HttpError(500, "AI Service unavailable after multiple attempts")

  /** How many iterations `range(retries)` has. */
  function Budget(retries: int): nat {
    if retries < 0 then 0 else retries
  }

  function Pow2(k: nat): (p: nat)
    ensures p >= 1
  {
    if k == 0 then 1 else 2 * Pow2(k - 1)
  }

  /** The sleeps after `m` raised calls, in order: 1, 2, 4, ... seconds. */
  function Backoffs(m: nat): (s: seq<nat>)
    ensures |s| == m
  {
    if m == 0 then [] else Backoffs(m - 1) + [Pow2(m - 1)]
  }

  /** The schedule as written: the sleep after the call numbered k is 2^k seconds. */
  lemma {:induction false} BackoffSchedule(m: nat, k: nat)
    requires k < m
    ensures Backoffs(m)[k] == Pow2(k)
  {
    if k < m - 1 {
      BackoffSchedule(m - 1, k);
    }
  }

  function Sum(s: seq<nat>): nat {
    if s == [] then 0 else Sum(s[..|s| - 1]) + s[|s| - 1]
  }

  lemma SumAppend(s: seq<nat>, x: nat)
    ensures Sum(s + [x]) == Sum(s) + x
  {
  }

  /**
   * The first call numbered from `from` up to (not including) `n` that answers
   * the prompt, or `n` when every one of them raises.
   */
  function FirstAnswer(respond: (string, nat) -> Attempt, prompt: string, from: nat, n: nat): (k: nat)
    requires from <= n
    ensures from <= k <= n
    ensures forall j :: from <= j < k ==> respond(prompt, j).Raised?
    ensures k < n ==> respond(prompt, k).Answered?
    decreases n - from
  {
    if from == n then n
    else if respond(prompt, from).Answered? then from
    else FirstAnswer(respond, prompt, from + 1, n)
  }

  /** The calls that raise before the loop ends: one sleep follows each. */
  function FailedCalls(respond: (string, nat) -> Attempt, prompt: string, retries: int): nat {
    FirstAnswer(respond, prompt, 0, Budget(retries))
  }

  /** What `retry_gemini_request` returns or raises. */
  function RetryResult(respond: (string, nat) -> Attempt, prompt: string, retries: int): Result<Reply, HttpError> {
    var k := FailedCalls(respond, prompt, retries);
    if k < Budget(retries) then Success(respond(prompt, k).reply) else Failure(Unavailable)
  }

  /** How many times `retry_gemini_request` calls the model. */
  function CallsMade(respond: (string, nat) -> Attempt, prompt: string, retries: int): nat {
    var k := FailedCalls(respond, prompt, retries);
    if k < Budget(retries) then k + 1 else Budget(retries)
  }

  /**
   * The loop of `retry_gemini_request`. `calls` counts the calls to the model
   * and `sleeps` lists the delays slept, one after each call that raised.
   */
  method RetryGeminiRequest(respond: (string, nat) -> Attempt, text: string, retries: int)
    returns (r: Result<Reply, HttpError>, calls: nat, ghost sleeps: seq<nat>)
    ensures r == RetryResult(respond, BuildPrompt(text), retries)
    ensures calls == CallsMade(respond, BuildPrompt(text), retries)
    ensures sleeps == Backoffs(FailedCalls(respond, BuildPrompt(text), retries))
  {
    var prompt := BuildPrompt(text);
    var attempt := 0;
    calls, sleeps := 0, [];
    while attempt < retries
      invariant 0 <= attempt <= Budget(retries)
      invariant calls == attempt
      invariant forall j :: 0 <= j < attempt ==> respond(prompt, j).Raised?
      invariant sleeps == Backoffs(attempt)
    {
      var outcome := respond(prompt, attempt);
      calls := calls + 1;
      if outcome.Answered? {
        FirstAnswerIsUnique(respond, prompt, Budget(retries), attempt);
        return Success(outcome.reply), calls, sleeps;
      }
      sleeps := sleeps + [Pow2(attempt)];
      attempt := attempt + 1;
    }
    FirstAnswerIsUnique(respond, prompt, Budget(retries), attempt);
    r := Failure(Unavailable);
  }

  /** Any index with FirstAnswer's three properties is FirstAnswer. */
  lemma FirstAnswerIsUnique(respond: (string, nat) -> Attempt, prompt: string, n: nat, k: nat)
    requires k <= n
    requires forall j :: 0 <= j < k ==> respond(prompt, j).Raised?
    requires k < n ==> respond(prompt, k).Answered?
    ensures FirstAnswer(respond, prompt, 0, n) == k
  {
  }

  /** The loop answers exactly when one of its `retries` calls answers. */
  lemma AnswersIffSomeCallAnswers(respond: (string, nat) -> Attempt, prompt: string, retries: int)
    ensures RetryResult(respond, prompt, retries).Success? <==>
      exists j :: 0 <= j < retries && respond(prompt, j).Answered?
  {
  }

  /** The loop returns the reply of the first call that answers, and makes no call after it. */
  lemma StopsAtFirstAnswer(respond: (string, nat) -> Attempt, prompt: string, retries: int, k: nat)
    requires k < retries
    requires forall j :: 0 <= j < k ==> respond(prompt, j).Raised?
    requires respond(prompt, k).Answered?
    ensures RetryResult(respond, prompt, retries) == Success(respond(prompt, k).reply)
    ensures CallsMade(respond, prompt, retries) == k + 1
    ensures FailedCalls(respond, prompt, retries) == k
  {
  }

  /** At most `retries` calls are made, and at least one when `retries` is positive. */
  lemma CallsAreBounded(respond: (string, nat) -> Attempt, prompt: string, retries: int)
    ensures CallsMade(respond, prompt, retries) <= Budget(retries)
    ensures retries > 0 ==> CallsMade(respond, prompt, retries) > 0
    ensures FailedCalls(respond, prompt, retries) <= CallsMade(respond, prompt, retries)
  {
  }

  /** Sleeping 1, 2, 4, ... seconds after each of `m` raised calls adds up to 2^m - 1 seconds. */
  lemma {:induction false} TotalBackoff(m: nat)
    ensures Sum(Backoffs(m)) == Pow2(m) - 1
  {
    if m > 0 {
      TotalBackoff(m - 1);
      SumAppend(Backoffs(m - 1), Pow2(m - 1));
    }
  }

  /**
   * With the default three attempts all raising: three calls, sleeps of 1, 2
   * and 4 seconds (the last one after the final call), 7 seconds in all, then
   * HTTP 500.
   */
  lemma AllDefaultAttemptsRaise(respond: (string, nat) -> Attempt, prompt: string)
    requires respond(prompt, 0).Raised? && respond(prompt, 1).Raised? && respond(prompt, 2).Raised?
    ensures RetryResult(respond, prompt, DefaultRetries) == Failure(Unavailable)
    ensures CallsMade(respond, prompt, DefaultRetries) == 3
    ensures Backoffs(FailedCalls(respond, prompt, DefaultRetries)) == [1, 2, 4]
    ensures Sum(Backoffs(FailedCalls(respond, prompt, DefaultRetries))) == 7
  {
    FirstAnswerIsUnique(respond, prompt, 3, 3);
    assert Backoffs(3) == [1, 2, 4];
    TotalBackoff(3);
  }

  /** Two raised calls then an answer: the third reply is returned after sleeping 1 and 2 seconds. */
  lemma ThirdAttemptAnswers(respond: (string, nat) -> Attempt, prompt: string)
    requires respond(prompt, 0).Raised? && respond(prompt, 1).Raised? && respond(prompt, 2).Answered?
    ensures RetryResult(respond, prompt, DefaultRetries) == Success(respond(prompt, 2).reply)
    ensures CallsMade(respond, prompt, DefaultRetries) == 3
    ensures Backoffs(FailedCalls(respond, prompt, DefaultRetries)) == [1, 2]
  {
  }
}
