/** The bounded retry of `QuestionGenerator.generate_mcq` and
    `generate_fill_blank`: the send, parse and check cycle runs at most
    three times, the first accepted record is returned, and the third
    failure becomes a terminal error. */
module Acquisition {
  import opened Results
  import opened Questions

  /** What one call to the language model gives back: the response text, or
      the error the call raised. */
  datatype Reply = Content(text: string) | Raised(error: string)

  /** The result of one generator call, with the number of model calls it
      made. */
  datatype Acquired<T> = Acquired(result: Result<T>, calls: nat)

  const MaxAttempts := 3

  const McqFailurePrefix := "Failed to generate valid MCQ: "
  const FillBlankFailurePrefix := "Failed to generate valid fill-in-the-blank: "

  /** The retry loop from attempt `attempt` on, over the outcomes the
      attempts would have. */
  function RetryFrom<T>(outcomes: seq<Result<T>>, attempt: nat, prefix: string): (r: Acquired<T>)
    requires attempt < MaxAttempts <= |outcomes|
    ensures attempt < r.calls <= MaxAttempts
    ensures forall j :: attempt <= j < r.calls - 1 ==> outcomes[j].Failure?
    ensures r.result.Success? ==> r.result == outcomes[r.calls - 1]
    ensures r.result.Failure? ==>
      && r.calls == MaxAttempts
      && outcomes[MaxAttempts - 1].Failure?
      && r.result.error == prefix + outcomes[MaxAttempts - 1].error
    decreases MaxAttempts - attempt
  {
    match outcomes[attempt]
    case Success(v) => Acquired(Success(v), attempt + 1)
    case Failure(m) =>
      if attempt == MaxAttempts - 1 then Acquired(Failure(prefix + m), attempt + 1)
      else RetryFrom(outcomes, attempt + 1, prefix)
  }

  /** The whole retry loop. At most three attempts are made; the result is
      the first successful attempt and no attempt follows it; the loop
      fails only when all three attempts fail, and then only after the
      third, with the third failure's description after `prefix`. */
  function Retry<T>(outcomes: seq<Result<T>>, prefix: string): (r: Acquired<T>)
    requires |outcomes| >= MaxAttempts
    ensures 1 <= r.calls <= MaxAttempts
    ensures forall j :: 0 <= j < r.calls - 1 ==> outcomes[j].Failure?
    ensures r.result.Success? ==> r.result == outcomes[r.calls - 1]
    ensures r.result.Success? <==> exists j :: 0 <= j < MaxAttempts && outcomes[j].Success?
    ensures r.result.Failure? ==>
      r.calls == MaxAttempts && r.result.error == prefix + outcomes[MaxAttempts - 1].error
  {
    RetryFrom(outcomes, 0, prefix)
  }

  /** One attempt of `generate_mcq`: call the model, parse its text, then
      check the record. An error raised by the call or the parser fails the
      attempt with that error's description. */
  function McqAttempt(reply: Reply, parse: string -> Result<McqQuestion>): (r: Result<McqQuestion>)
    ensures r.Success? ==> reply.Content? && parse(reply.text) == r && ValidMcq(r.value)
    ensures reply.Content? && parse(reply.text).Success? ==> r == CheckMcq(parse(reply.text).value)
    ensures reply.Content? && parse(reply.text).Failure? ==> r == Failure(parse(reply.text).error)
    ensures reply.Raised? ==> r == Failure(reply.error)
  {
    match reply
    case Raised(m) => Failure(m)
    case Content(text) =>
      match parse(text)
      case Failure(m) => Failure(m)
      case Success(q) => CheckMcq(q)
  }

  /** One attempt of `generate_fill_blank`. An accepted record is the parsed
      one with its blank repaired. */
  function FillBlankAttempt(reply: Reply, parse: string -> Result<FillBlankQuestion>): (r: Result<FillBlankQuestion>)
    ensures r.Success? ==>
      && reply.Content? && parse(reply.text).Success?
      && r == CheckFillBlank(parse(reply.text).value)
      && ValidFillBlank(r.value)
    ensures reply.Content? && parse(reply.text).Success? ==> r == CheckFillBlank(parse(reply.text).value)
    ensures reply.Content? && parse(reply.text).Failure? ==> r == Failure(parse(reply.text).error)
    ensures reply.Raised? ==> r == Failure(reply.error)
  {
    match reply
    case Raised(m) => Failure(m)
    case Content(text) =>
      match parse(text)
      case Failure(m) => Failure(m)
      case Success(q) => CheckFillBlank(q)
  }

  /** `generate_mcq` over the replies the model would give to successive
      calls. */
  function GenerateMcq(replies: seq<Reply>, parse: string -> Result<McqQuestion>): (r: Acquired<McqQuestion>)
    requires |replies| >= MaxAttempts
    ensures 1 <= r.calls <= MaxAttempts
    ensures forall j :: 0 <= j < r.calls - 1 ==> McqAttempt(replies[j], parse).Failure?
    ensures r.result.Success? ==>
      && ValidMcq(r.result.value)
      && replies[r.calls - 1].Content?
      && parse(replies[r.calls - 1].text) == r.result
    ensures r.result.Success? <==> exists j :: 0 <= j < MaxAttempts && McqAttempt(replies[j], parse).Success?
    ensures r.result.Failure? ==>
      r.calls == MaxAttempts
      && r.result.error == McqFailurePrefix + McqAttempt(replies[MaxAttempts - 1], parse).error
  {
    var outcomes := [McqAttempt(replies[0], parse), McqAttempt(replies[1], parse), McqAttempt(replies[2], parse)];
    Retry(outcomes, McqFailurePrefix)
  }

  /** `generate_fill_blank` over the replies the model would give to
      successive calls. */
  function GenerateFillBlank(replies: seq<Reply>, parse: string -> Result<FillBlankQuestion>): (r: Acquired<FillBlankQuestion>)
    requires |replies| >= MaxAttempts
    ensures 1 <= r.calls <= MaxAttempts
    ensures forall j :: 0 <= j < r.calls - 1 ==> FillBlankAttempt(replies[j], parse).Failure?
    ensures r.result.Success? ==>
      && ValidFillBlank(r.result.value)
      && replies[r.calls - 1].Content?
      && parse(replies[r.calls - 1].text).Success?
      && r.result == CheckFillBlank(parse(replies[r.calls - 1].text).value)
    ensures r.result.Success? <==> exists j :: 0 <= j < MaxAttempts && FillBlankAttempt(replies[j], parse).Success?
    ensures r.result.Failure? ==>
      r.calls == MaxAttempts
      && r.result.error == FillBlankFailurePrefix + FillBlankAttempt(replies[MaxAttempts - 1], parse).error
  {
    var outcomes := [FillBlankAttempt(replies[0], parse), FillBlankAttempt(replies[1], parse), FillBlankAttempt(replies[2], parse)];
    Retry(outcomes, FillBlankFailurePrefix)
  }

  /** Two failed attempts followed by a good one: the third attempt's record
      is returned after exactly three calls. */
  lemma ThirdAttemptSucceeds<T>(outcomes: seq<Result<T>>, prefix: string)
    requires |outcomes| >= MaxAttempts
    requires outcomes[0].Failure? && outcomes[1].Failure? && outcomes[2].Success?
    ensures Retry(outcomes, prefix) == Acquired(outcomes[2], 3)
  {
  }

  /** Three failed attempts: a terminal error after exactly three calls. */
  lemma AllAttemptsFail<T>(outcomes: seq<Result<T>>, prefix: string)
    requires |outcomes| >= MaxAttempts
    requires outcomes[0].Failure? && outcomes[1].Failure? && outcomes[2].Failure?
    ensures Retry(outcomes, prefix) == Acquired(Failure(prefix + outcomes[2].error), 3)
  {
  }
}
