/** Concrete runs of the quiz core: blank repair, grading and a failed
    generation. */
module Scenarios {
  import opened Results
  import opened Text
  import opened Questions
  import opened Quiz

  /** A string without underscores holds no marker. */
  lemma NoUnderscoreNoMarker(s: string)
    requires forall i :: 0 <= i < |s| ==> s[i] != '_'
    ensures !Contains(s, ShortBlank)
  {
    forall i ensures !OccursAt(s, ShortBlank, i) {
      if 0 <= i && i + |ShortBlank| <= |s| {
        assert s[i..i + |ShortBlank|][0] == s[i] != '_';
      }
    }
    ContainsIffOccurs(s, ShortBlank);
  }

  /** A complete record whose question has no marker fails the blank
      check. */
  lemma MarkerlessFails(q: FillBlankQuestion)
    requires q.question != [] && q.answer != [] && !Contains(q.question, ShortBlank)
    ensures CheckFillBlank(q) == Failure(MissingBlank)
  {
  }

  /** A sentence with no marker at all is rejected for the missing blank. */
  lemma NoMarkerRejected()
    ensures CheckFillBlank(FillBlankQuestion("Capital?", "Paris")) == Failure(MissingBlank)
  {
    NoUnderscoreNoMarker("Capital?");
    MarkerlessFails(FillBlankQuestion("Capital?", "Paris"));
  }

  lemma ParisLower()
    ensures Lower("paris") == Lower("Paris")
  {
  }

  lemma ParisPadded()
    ensures " paris " == " " + "paris" + " "
    ensures AllSpace(" ")
  {
  }

  /** Fill-in-the-blank grading ignores case and surrounding whitespace, so
      " paris " is right for "Paris". */
  lemma FillBlankScenario()
    ensures Grade(FillBlank("Capital: _____.", "Paris"), " paris ", 1).isCorrect
  {
    var q := FillBlank("Capital: _____.", "Paris");
    ParisPadded();
    FillBlankGradeIgnoresPadding(q, "paris", " ", " ", 1);
    ParisLower();
    FillBlankGradeIgnoresCase(q, "paris", "Paris", 1);
  }

  /** Multiple-choice grading is exact: a different letter case is wrong. */
  lemma McqScenario()
    ensures !Grade(Mcq("Capital?", ["Paris", "Rome", "Oslo", "Bern"], "Paris"), "paris", 1).isCorrect
  {
  }

  /** Three multiple-choice questions with two right answers score 2 of 3,
      and exactly the second result is marked wrong. */
  lemma ThreeMcqScenario()
    ensures var opts := ["a", "b", "c", "d"];
      var m := QuizManager([Mcq("Q1", opts, "a"), Mcq("Q2", opts, "b"), Mcq("Q3", opts, "c")],
                           ["a", "c", "c"], []);
      var rs := EvaluateQuiz(m).results;
      |rs| == 3 && CountCorrect(rs) == 2 && !rs[1].isCorrect && rs[0].isCorrect && rs[2].isCorrect
  {
  }

  /** When the third generator call raises, `generate_questions` returns
      false and the two entries appended before it stay in the list. */
  lemma ThirdAcquisitionFails(m: QuizManager)
    ensures var q := McqQuestion("Q", ["a", "b", "c", "d"], "a");
      var gen := Generator([Success(q), Success(q), Failure("Failed to generate valid MCQ: x")], []);
      var g := GenerateQuestions(m, gen, MultipleChoice, 3);
      !g.ok && |g.manager.questions| == 2
  {
  }
}
