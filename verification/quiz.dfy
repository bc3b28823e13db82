/** The quiz session of app.py (`QuizManager`): generating the question list,
    grading the submitted answers and counting the correct ones. */
module Quiz {
  import opened Results
  import opened Text
  import opened Questions
  import opened Acquisition

  /** One entry of the session's question list. The source keeps it as a
      dictionary whose `type` key is `MCQ` or `Fill in the Blank`; here the
      constructor is the type. */
  datatype QuizQuestion =
    | Mcq(question: string, options: seq<string>, correctAnswer: string)
    | FillBlank(question: string, correctAnswer: string)

  const McqLabel := "MCQ"
  const FillBlankLabel := "Fill in the Blank"

  /** The question type chosen in the settings that selects `generate_mcq`;
      any other choice selects `generate_fill_blank`. */
  const MultipleChoice := "Multiple Choice"

  function TypeLabel(q: QuizQuestion): string {
    if q.Mcq? then McqLabel else FillBlankLabel
  }

  /** One graded answer, the dictionary `evaluate_quiz` appends to `results`. */
  datatype QuizResult = QuizResult(
    questionNumber: nat,
    question: string,
    questionType: string,
    userAnswer: string,
    correctAnswer: string,
    isCorrect: bool,
    options: seq<string>)

  datatype QuizManager = QuizManager(
    questions: seq<QuizQuestion>,
    userAnswers: seq<string>,
    results: seq<QuizResult>)

  /** A list entry that passed the acquisition checks. */
  predicate Presentable(e: QuizQuestion) {
    match e
    case Mcq(q, opts, c) => ValidMcq(McqQuestion(q, opts, c))
    case FillBlank(q, c) => ValidFillBlank(FillBlankQuestion(q, c))
  }

  /** The entry `generate_questions` appends for a multiple-choice record:
      its three fields copied unchanged. */
  function FromMcq(q: McqQuestion): (e: QuizQuestion)
    ensures e.Mcq? && e.question == q.question && e.options == q.options && e.correctAnswer == q.correctAnswer
    ensures Presentable(e) <==> ValidMcq(q)
  {
    Mcq(q.question, q.options, q.correctAnswer)
  }

  /** The entry `generate_questions` appends for a fill-in-the-blank record:
      the record's `answer` becomes the entry's correct answer. */
  function FromFillBlank(q: FillBlankQuestion): (e: QuizQuestion)
    ensures e.FillBlank? && e.question == q.question && e.correctAnswer == q.answer
    ensures Presentable(e) <==> ValidFillBlank(q)
  {
    FillBlank(q.question, q.answer)
  }

  /** What successive calls of `generate_mcq` and of `generate_fill_blank`
      return to `generate_questions`: a record, or the error the call
      raised. Only the list of the selected kind is read. */
  datatype Generator = Generator(
    mcq: seq<Result<McqQuestion>>,
    fillBlank: seq<Result<FillBlankQuestion>>)

  /** The entries the acquisition loop collects, and whether it ran to the
      end. */
  datatype Batch = Batch(questions: seq<QuizQuestion>, ok: bool)

  /** The acquisition loop of `generate_questions` over the results of `n`
      successive generator calls, each record converted by `convert`. The
      loop stops at the first call that raises. The entries are the
      converted records of the calls before that one, in call order, and
      the loop completes exactly when there is no such call among the
      first `n`. */
  function Collect<R>(calls: seq<Result<R>>, convert: R -> QuizQuestion, n: nat): (b: Batch)
    requires |calls| >= n
    ensures |b.questions| <= n
    ensures b.ok <==> |b.questions| == n
    ensures forall i :: 0 <= i < |b.questions| ==>
      calls[i].Success? && b.questions[i] == convert(calls[i].value)
    ensures |b.questions| < n ==> calls[|b.questions|].Failure?
    decreases n
  {
    if n == 0 then Batch([], true)
    else match calls[0]
      case Failure(_) => Batch([], false)
      case Success(record) =>
        var rest := Collect(calls[1..], convert, n - 1);
        Batch([convert(record)] + rest.questions, rest.ok)
  }

  /** What `generate_questions` reports, with the session it leaves. */
  datatype Generation = Generation(ok: bool, manager: QuizManager)

  /** `QuizManager.generate_questions`. The session is reset first: the
      answers and results are empty and nothing of the old session is kept.
      With `k` entries in the new list, the first `k` generator calls of the
      selected kind succeeded and entry `i` is record `i` converted. The
      call returns true exactly when `k` is `numQuestions`; otherwise call
      `k` raised and the `k` entries appended before it stay in the list.
      The topic and difficulty only shape the prompt and are not modelled. */
  function GenerateQuestions(
    m: QuizManager, gen: Generator, questionType: string, numQuestions: nat): (g: Generation)
    requires questionType == MultipleChoice ==> |gen.mcq| >= numQuestions
    requires questionType != MultipleChoice ==> |gen.fillBlank| >= numQuestions
    ensures g.manager.userAnswers == [] && g.manager.results == []
    ensures g.ok <==> |g.manager.questions| == numQuestions
    ensures |g.manager.questions| <= numQuestions
    ensures questionType == MultipleChoice ==>
      && (forall i :: 0 <= i < |g.manager.questions| ==>
            gen.mcq[i].Success? && g.manager.questions[i] == FromMcq(gen.mcq[i].value))
      && (!g.ok ==> gen.mcq[|g.manager.questions|].Failure?)
    ensures questionType != MultipleChoice ==>
      && (forall i :: 0 <= i < |g.manager.questions| ==>
            gen.fillBlank[i].Success? && g.manager.questions[i] == FromFillBlank(gen.fillBlank[i].value))
      && (!g.ok ==> gen.fillBlank[|g.manager.questions|].Failure?)
  {
    var reset := QuizManager([], [], []);
    var b := if questionType == MultipleChoice then Collect(gen.mcq, FromMcq, numQuestions)
             else Collect(gen.fillBlank, FromFillBlank, numQuestions);
    Generation(b.ok, reset.(questions := b.questions))
  }

  /** The generator backed by the model: call `k` of each method runs the
      retry loop over the replies it gets from the model. Every record such
      a generator returns passed its checks. */
  function ModelGenerator(
    mcqReplies: seq<seq<Reply>>, parseMcq: string -> Result<McqQuestion>,
    fillBlankReplies: seq<seq<Reply>>, parseFillBlank: string -> Result<FillBlankQuestion>): (gen: Generator)
    requires forall k :: 0 <= k < |mcqReplies| ==> |mcqReplies[k]| >= MaxAttempts
    requires forall k :: 0 <= k < |fillBlankReplies| ==> |fillBlankReplies[k]| >= MaxAttempts
    ensures |gen.mcq| == |mcqReplies| && |gen.fillBlank| == |fillBlankReplies|
    ensures forall k :: 0 <= k < |gen.mcq| ==> gen.mcq[k] == GenerateMcq(mcqReplies[k], parseMcq).result
    ensures forall k :: 0 <= k < |gen.fillBlank| ==>
      gen.fillBlank[k] == GenerateFillBlank(fillBlankReplies[k], parseFillBlank).result
    ensures forall k :: 0 <= k < |gen.mcq| && gen.mcq[k].Success? ==> ValidMcq(gen.mcq[k].value)
    ensures forall k :: 0 <= k < |gen.fillBlank| && gen.fillBlank[k].Success? ==>
      ValidFillBlank(gen.fillBlank[k].value)
  {
    Generator(
      seq(|mcqReplies|, k requires 0 <= k < |mcqReplies| => GenerateMcq(mcqReplies[k], parseMcq).result),
      seq(|fillBlankReplies|, k requires 0 <= k < |fillBlankReplies|
        => GenerateFillBlank(fillBlankReplies[k], parseFillBlank).result))
  }

  /** With the model-backed generator, every entry `generate_questions`
      puts in the list is of the selected kind and passed its checks: a
      question is never shown before it is validated. */
  lemma GeneratedQuestionsPresentable(
    m: QuizManager,
    mcqReplies: seq<seq<Reply>>, parseMcq: string -> Result<McqQuestion>,
    fillBlankReplies: seq<seq<Reply>>, parseFillBlank: string -> Result<FillBlankQuestion>,
    questionType: string, numQuestions: nat)
    requires forall k :: 0 <= k < |mcqReplies| ==> |mcqReplies[k]| >= MaxAttempts
    requires forall k :: 0 <= k < |fillBlankReplies| ==> |fillBlankReplies[k]| >= MaxAttempts
    requires questionType == MultipleChoice ==> |mcqReplies| >= numQuestions
    requires questionType != MultipleChoice ==> |fillBlankReplies| >= numQuestions
    ensures var gen := ModelGenerator(mcqReplies, parseMcq, fillBlankReplies, parseFillBlank);
      var qs := GenerateQuestions(m, gen, questionType, numQuestions).manager.questions;
      forall i :: 0 <= i < |qs| ==> qs[i].Mcq? == (questionType == MultipleChoice) && Presentable(qs[i])
  {
  }

  /** Asking for more questions never changes the ones acquired first, and
      after a generator call has raised, asking for more adds nothing. */
  lemma {:induction false} GenerateQuestionsPrefix(
    m: QuizManager, gen: Generator, questionType: string, n: nat, more: nat)
    requires n <= more
    requires questionType == MultipleChoice ==> |gen.mcq| >= more
    requires questionType != MultipleChoice ==> |gen.fillBlank| >= more
    ensures GenerateQuestions(m, gen, questionType, n).manager.questions
         <= GenerateQuestions(m, gen, questionType, more).manager.questions
    ensures !GenerateQuestions(m, gen, questionType, n).ok ==>
      GenerateQuestions(m, gen, questionType, more) == GenerateQuestions(m, gen, questionType, n)
  {
  }

  // ---------------------------------------------------------------------
  // Grading
  // ---------------------------------------------------------------------

  /** Fill-in-the-blank answers are compared after `strip()` and `lower()`. */
  predicate AnswersMatch(given: string, expected: string) {
    Lower(Strip(given)) == Lower(Strip(expected))
  }

  /** Grades one answer. A multiple-choice answer is right exactly when it
      equals the correct answer character for character, and the result
      keeps the options; a fill-in-the-blank answer is right exactly when
      it matches after stripping and lowering, and the result has no
      options. */
  function Grade(q: QuizQuestion, userAnswer: string, number: nat): (r: QuizResult)
    ensures r.questionNumber == number && r.question == q.question && r.questionType == TypeLabel(q)
    ensures r.userAnswer == userAnswer && r.correctAnswer == q.correctAnswer
    ensures q.Mcq? ==> r.options == q.options && (r.isCorrect <==> userAnswer == q.correctAnswer)
    ensures q.FillBlank? ==> r.options == [] && (r.isCorrect <==> AnswersMatch(userAnswer, q.correctAnswer))
  {
    var base := QuizResult(number, q.question, TypeLabel(q), userAnswer, q.correctAnswer, false, []);
    match q
    case Mcq(_, opts, c) => base.(options := opts, isCorrect := userAnswer == c)
    case FillBlank(_, c) => base.(options := [], isCorrect := AnswersMatch(userAnswer, c))
  }

  function Min(a: nat, b: nat): nat {
    if a <= b then a else b
  }

  /** Grades questions and answers paired by position, numbering from
      `offset + 1`; the longer list is cut to the shorter one. */
  function GradeFrom(questions: seq<QuizQuestion>, answers: seq<string>, offset: nat): (rs: seq<QuizResult>)
    ensures |rs| == Min(|questions|, |answers|)
    ensures forall i :: 0 <= i < |rs| ==> rs[i] == Grade(questions[i], answers[i], offset + i + 1)
    decreases |questions|
  {
    if questions == [] || answers == [] then []
    else [Grade(questions[0], answers[0], offset + 1)] + GradeFrom(questions[1..], answers[1..], offset + 1)
  }

  /** `QuizManager.evaluate_quiz`: the results are rebuilt from scratch, one
      per question that has an answer, numbered from 1 in question order;
      the question list and the answers are unchanged. */
  function EvaluateQuiz(m: QuizManager): (r: QuizManager)
    ensures r.questions == m.questions && r.userAnswers == m.userAnswers
    ensures |r.results| == Min(|m.questions|, |m.userAnswers|)
    ensures forall i :: 0 <= i < |r.results| ==> r.results[i] == Grade(m.questions[i], m.userAnswers[i], i + 1)
  {
    m.(results := GradeFrom(m.questions, m.userAnswers, 0))
  }

  /** What one rendering of the answer form (`attempt_quiz`) does to the
      session as written: the widget values of this rendering, one per
      question, are appended to the answers kept from earlier renderings. */
  function AttemptQuiz(m: QuizManager, rendered: seq<string>): (r: QuizManager)
    requires |rendered| == |m.questions|
    ensures r.questions == m.questions && r.results == m.results
    ensures |r.userAnswers| == |m.userAnswers| + |m.questions|
    ensures r.userAnswers[..|m.userAnswers|] == m.userAnswers
    ensures r.userAnswers[|m.userAnswers|..] == rendered
  {
    m.(userAnswers := m.userAnswers + rendered)
  }

  /** The form is rendered again on every interaction, so answers pile up;
      grading pairs each question with the answer from the FIRST rendering
      after generation and ignores what the user entered later. */
  lemma StaleAnswersGraded(m: QuizManager, first: seq<string>, latest: seq<string>)
    requires m.userAnswers == []
    requires |first| == |m.questions| && |latest| == |m.questions|
    ensures EvaluateQuiz(AttemptQuiz(AttemptQuiz(m, first), latest)).results
         == EvaluateQuiz(m.(userAnswers := first)).results
  {
  }

  /** A concrete run of the stale grading: the first rendering shows the
      radio's default, the user then picks the right option, and the
      answer is still graded wrong. */
  lemma StaleAnswerCounterexample()
    ensures var m := QuizManager([Mcq("Q", ["a", "b", "c", "d"], "b")], [], []);
      var graded := EvaluateQuiz(AttemptQuiz(AttemptQuiz(m, ["a"]), ["b"]));
      !graded.results[0].isCorrect
  {
  }

  /** The evidently intended `attempt_quiz`: each rendering replaces the
      answers with the values currently in the form. */
  function RecordAnswers(m: QuizManager, rendered: seq<string>): (r: QuizManager)
    requires |rendered| == |m.questions|
    ensures r.questions == m.questions && r.results == m.results
    ensures r.userAnswers == rendered
  {
    m.(userAnswers := rendered)
  }

  /** With answers replaced on each rendering, grading sees the latest
      answers, one per question, however many renderings came before. */
  lemma LatestAnswersGraded(m: QuizManager, first: seq<string>, latest: seq<string>)
    requires |first| == |m.questions| && |latest| == |m.questions|
    ensures var graded := EvaluateQuiz(RecordAnswers(RecordAnswers(m, first), latest)).results;
      && |graded| == |m.questions|
      && forall i :: 0 <= i < |graded| ==> graded[i] == Grade(m.questions[i], latest[i], i + 1)
  {
  }

  /** Grading twice in a row gives the same results as grading once, and the
      results never depend on the ones that were there before. */
  lemma EvaluateQuizIdempotent(m: QuizManager, stale: seq<QuizResult>)
    ensures EvaluateQuiz(EvaluateQuiz(m)) == EvaluateQuiz(m)
    ensures EvaluateQuiz(m.(results := stale)) == EvaluateQuiz(m)
  {
  }

  /** Whitespace around a fill-in-the-blank answer does not change its grade. */
  lemma FillBlankGradeIgnoresPadding(q: QuizQuestion, answer: string, before: string, after: string, number: nat)
    requires q.FillBlank?
    requires AllSpace(before) && AllSpace(after)
    ensures Grade(q, before + answer + after, number).isCorrect == Grade(q, answer, number).isCorrect
  {
    StripPadded(before, answer, after);
  }

  /** Two fill-in-the-blank answers that differ only in letter case get the
      same grade. */
  lemma FillBlankGradeIgnoresCase(q: QuizQuestion, answer: string, other: string, number: nat)
    requires q.FillBlank?
    requires Lower(answer) == Lower(other)
    ensures Grade(q, answer, number).isCorrect == Grade(q, other, number).isCorrect
  {
    LowerStrip(answer);
    LowerStrip(other);
  }

  // ---------------------------------------------------------------------
  // Score
  // ---------------------------------------------------------------------

  /** The positions of the results graded correct. */
  function CorrectPositions(results: seq<QuizResult>): set<int> {
    set i | 0 <= i < |results| && results[i].isCorrect
  }

  /** Correct results among `results`, counted from the front. */
  function CountCorrect(results: seq<QuizResult>): (c: nat)
    ensures c <= |results|
    decreases |results|
  {
    if results == [] then 0
    else CountCorrect(results[..|results| - 1]) + (if results[|results| - 1].isCorrect then 1 else 0)
  }

  /** The count is the number of positions graded correct. */
  lemma {:induction false} CountCorrectIsSize(results: seq<QuizResult>)
    ensures CountCorrect(results) == |CorrectPositions(results)|
    decreases |results|
  {
    if results != [] {
      var n := |results| - 1;
      var front := results[..n];
      CountCorrectIsSize(front);
      if results[n].isCorrect {
        assert CorrectPositions(results) == CorrectPositions(front) + {n};
      } else {
        assert CorrectPositions(results) == CorrectPositions(front);
      }
    }
  }

  /** The score `main` shows after grading: the number of results marked
      correct, out of all results. */
  method Score(results: seq<QuizResult>) returns (correct: nat, total: nat)
    ensures total == |results|
    ensures correct == |CorrectPositions(results)|
    ensures correct <= total
  {
    correct := 0;
    var i := 0;
    while i < |results|
      invariant 0 <= i <= |results|
      invariant correct == CountCorrect(results[..i])
    {
      assert results[..i + 1][..i] == results[..i];
      if results[i].isCorrect {
        correct := correct + 1;
      }
      i := i + 1;
    }
    assert results[..i] == results;
    CountCorrectIsSize(results);
    total := |results|;
  }
}
