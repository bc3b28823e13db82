/** The two parsed question records of utils.py and the checks a parsed
    record must pass before a generator method returns it. */
module Questions {
  import opened Results
  import opened Text

  /** A parsed multiple-choice answer: `MCQQuestion`. */
  datatype McqQuestion = McqQuestion(question: string, options: seq<string>, correctAnswer: string)

  /** A parsed fill-in-the-blank answer: `FillBlankQuestion`. */
  datatype FillBlankQuestion = FillBlankQuestion(question: string, answer: string)

  const OptionCount := 4

  /** The blank a fill-in-the-blank question must show, and the shorter
      marker the repair step widens into it. */
  const Blank := "_____"
  const ShortBlank := "___"

  const InvalidFormat := "Invalid question format"
  const AnswerNotInOptions := "Correct answer not in options"
  const MissingBlank := "Question missing blank '_____'"

  /** A multiple-choice question fit to be shown: non-empty text, four
      options, and a non-empty correct answer that is one of them. */
  predicate ValidMcq(q: McqQuestion) {
    && q.question != []
    && |q.options| == OptionCount
    && q.correctAnswer != []
    && q.correctAnswer in q.options
  }

  /** A fill-in-the-blank question fit to be shown: non-empty text holding
      the blank, and a non-empty answer. */
  predicate ValidFillBlank(q: FillBlankQuestion) {
    q.question != [] && q.answer != [] && Contains(q.question, Blank)
  }

  /** The checks `generate_mcq` applies to a parsed record. The record is
      accepted unchanged exactly when it is valid; the shape check comes
      first and reports a bad format, the membership check second. */
  function CheckMcq(q: McqQuestion): (r: Result<McqQuestion>)
    ensures r.Success? <==> ValidMcq(q)
    ensures r.Success? ==> r.value == q
    ensures r.Failure? ==>
      r.error == (if q.question != [] && |q.options| == OptionCount && q.correctAnswer != []
                then AnswerNotInOptions else InvalidFormat)
  {
    if q.question == [] || |q.options| != OptionCount || q.correctAnswer == [] then
      Failure(InvalidFormat)
    else if q.correctAnswer !in q.options then
      Failure(AnswerNotInOptions)
    else
      Success(q)
  }

  lemma BlankHoldsShortBlank(s: string)
    requires Contains(s, Blank)
    ensures Contains(s, ShortBlank)
  {
  }

  /** The repair step of `generate_fill_blank`: a question lacking the blank
      has every `___` widened to `_____` by `str.replace`, the rest of its
      text kept (see `ReplaceAllLeftmost`). The repaired question holds the
      blank exactly when the original held at least the short marker; a
      question that already had the blank, or had no marker at all, is
      left unchanged. */
  function RepairBlank(question: string): (r: string)
    ensures Contains(r, Blank) <==> Contains(question, ShortBlank)
    ensures Contains(question, Blank) ==> r == question
    ensures !Contains(question, ShortBlank) ==> r == question
    ensures !Contains(question, Blank) ==> r == ReplaceAll(question, ShortBlank, Blank)
  {
    if Contains(question, Blank) then
      BlankHoldsShortBlank(question);
      question
    else
      var repaired := ReplaceAll(question, ShortBlank, Blank);
      if Contains(question, ShortBlank) then
        ReplaceAllIntroduces(question, ShortBlank, Blank);
        repaired
      else
        ReplaceAllAbsent(question, ShortBlank, Blank);
        repaired
  }

  /** The checks `generate_fill_blank` applies to a parsed record. It is
      accepted exactly when both fields are non-empty and the question holds
      at least the short marker; an accepted record is valid, keeps its
      answer, and is returned unchanged when it already had the blank. */
  function CheckFillBlank(q: FillBlankQuestion): (r: Result<FillBlankQuestion>)
    ensures r.Success? <==> q.question != [] && q.answer != [] && Contains(q.question, ShortBlank)
    ensures r.Success? ==> ValidFillBlank(r.value) && r.value.answer == q.answer
    ensures r.Success? ==> r.value.question == RepairBlank(q.question)
    ensures r.Success? && Contains(q.question, Blank) ==> r.value == q
    ensures r.Failure? ==>
      r.error == (if q.question == [] || q.answer == [] then InvalidFormat else MissingBlank)
  {
    if q.question == [] || q.answer == [] then
      Failure(InvalidFormat)
    else
      var repaired := RepairBlank(q.question);
      if !Contains(repaired, Blank) then
        Failure(MissingBlank)
      else
        Success(q.(question := repaired))
  }

  /** Checking an accepted record again accepts it unchanged: the repair
      step is idempotent. */
  lemma CheckFillBlankIdempotent(q: FillBlankQuestion)
    requires CheckFillBlank(q).Success?
    ensures CheckFillBlank(CheckFillBlank(q).value) == CheckFillBlank(q)
  {
  }
}
