# Exam quiz generator: verified model of the acquisition and grading core

The application asks a language model for exam questions, shows them,
grades the answers and exports the results. This project models the part
of it that is pure decision logic:

- **Question acceptance and repair** (`utils.py`). The two parsed record
  shapes are `MCQQuestion` and `FillBlankQuestion`. A multiple-choice record
  must have non-empty text, exactly four options, and a non-empty correct
  answer that is one of the options. A fill-in-the-blank record must have
  non-empty text and answer. Its text must hold the blank `_____`, after one
  repair that widens every `___` to `_____` (Python's `str.replace`).
- **Bounded retry** (`utils.py`). `generate_mcq` and `generate_fill_blank`
  run the send, parse and check cycle at most three times. They return the
  first record that passes. After the third failure they raise an error
  that carries that failure's description.
- **Quiz session** (`app.py`, `QuizManager`). `generate_questions` resets
  the session and makes N generator calls in order. It stops at the first
  call that raises. `evaluate_quiz` pairs questions with answers by
  position and grades them. Multiple-choice answers are graded by exact
  equality. Fill-in-the-blank answers are compared after `strip()` and
  `lower()`. `main` counts the correct results.

The modules follow the source:

- `results.dfy`: `Result` is a value or a raised error's description.
- `text.dfy`: substring test, `str.replace`, `str.strip`, `str.lower`.
- `questions.dfy`: the records and their checks.
- `acquisition.dfy`: the retry loop and the two generator methods.
- `quiz.dfy`: the session.
- `scenarios.dfy`: concrete worked examples.

The language model is abstracted away:

- One model call gives back a `Reply`. That is the response text, or the
  error the call raised.
- The JSON parser is a function parameter that turns text into a record or
  an error.
- The retry loop itself takes the outcomes of its attempts as input.
- The session takes a `Generator`: the results that successive
  `generate_mcq` or `generate_fill_blank` calls return.
- `ModelGenerator` builds such a generator from the model's replies to each
  call, through the retry loop.

Three behaviours of the code worth knowing:

- When a generator call raises, `generate_questions` returns false. The
  entries appended before that call stay in `questions`.
- `evaluate_quiz` does not reject a session whose answer count differs from
  its question count. It grades the pairs `zip` forms and ignores the rest.
- The four options are not checked for distinctness.

## Model

| member | source | states |
|---|---|---|
| Questions.CheckMcq | utils.py:81-86 | a parsed MCQ is accepted, unchanged, exactly when its text is non-empty, it has 4 options and its correct answer is non-empty and one of the options; a bad shape is reported as "Invalid question format", and a good shape with an unlisted answer as "Correct answer not in options" |
| Questions.RepairBlank | utils.py:112-115 | a question without `_____` becomes `question.replace("___", "_____")`, whose meaning `Text.ReplaceAllLeftmost` states; the repaired question holds `_____` exactly when the original holds `___`; a question that already has `_____`, or has no `___`, is left unchanged |
| Questions.CheckFillBlank | utils.py:110-116 | a parsed fill-in-the-blank record is accepted exactly when text and answer are non-empty and the text holds `___`; the accepted record holds `_____`, keeps its answer, and is unchanged if it already had the blank; failures say "Invalid question format" or "Question missing blank '_____'" |
| Questions.CheckFillBlankIdempotent | utils.py:112-116 | checking an accepted record again returns it unchanged |
| Text.ContainsIffOccurs | utils.py:112 | the left-to-right scan used for `pat in s` holds exactly when some window of `s` equals `pat` |
| Text.ReplaceAllLeftmost | utils.py:113 | replacement keeps the text before the first `___`, turns that occurrence into `_____`, and rewrites the rest the same way (non-overlapping, left to right) |
| Text.ReplaceAllAbsent | utils.py:113-115 | with no `___` in the question, the replacement is the identity |
| Text.ReplaceAllIntroduces | utils.py:113-114 | if `___` occurs, the replaced question contains `_____` |
| Acquisition.RetryFrom | utils.py:76-90 | from any attempt on, the loop makes at most 3 calls; every attempt before the last one made failed; a success is returned as is; a failure happens only on the third attempt, with the prefix followed by the third failure's message |
| Acquisition.Retry | utils.py:76-90 | 1 to 3 attempts are made; the result is the first successful attempt and no attempt follows it; the loop succeeds exactly when one of the three attempts succeeds; otherwise exactly 3 calls are made and the error embeds the third failure's description |
| Acquisition.ThirdAttemptSucceeds | utils.py:76-90 | two failed attempts then a good one: the third attempt's record after exactly 3 calls |
| Acquisition.AllAttemptsFail | utils.py:87-90 | three failed attempts: a terminal error after exactly 3 calls, never a 4th |
| Acquisition.McqAttempt | utils.py:77-86 | an accepted attempt had a reply whose text parsed into exactly the returned record, and that record is valid; a raised call or parse error fails the attempt with its message |
| Acquisition.FillBlankAttempt | utils.py:106-116 | an accepted attempt returns the parsed record after the blank check and repair, and it is valid; a raised call or parse error fails the attempt with its message |
| Acquisition.GenerateMcq | utils.py:62-90 | `generate_mcq`: 1 to 3 model calls; a returned record is valid and is exactly what the last reply parsed to; earlier attempts all failed; a failure carries "Failed to generate valid MCQ: " and the third attempt's message |
| Acquisition.GenerateFillBlank | utils.py:92-120 | `generate_fill_blank`: 1 to 3 model calls; a returned record is the last reply's parsed record, checked and repaired, and valid; a failure carries "Failed to generate valid fill-in-the-blank: " and the third attempt's message |
| Quiz.FromMcq | app.py:24-29 | an MCQ entry copies question, options and correct answer unchanged, and is presentable exactly when the record is valid |
| Quiz.FromFillBlank | app.py:32-36 | a fill-in-the-blank entry's correct answer is the record's `answer` |
| Quiz.Collect | app.py:21-39 | the loop collects at most N entries; entry i is call i's record converted, in call order; it completes exactly when it has N entries, and otherwise the call after the last entry raised |
| Quiz.GenerateQuestions | app.py:18-40 | answers and results are cleared; it returns true exactly when N entries were acquired, all of the selected kind, in acquisition order; on failure the entries appended before the failing call are kept |
| Quiz.GenerateQuestionsPrefix | app.py:21-39 | asking for more questions never changes the first ones, and after a failure asking for more adds nothing |
| Quiz.ModelGenerator | utils.py:76-120 | a generator whose calls run the retry loop returns only records that passed their checks |
| Quiz.GeneratedQuestionsPresentable | app.py:21-36 | with the model-backed generator every listed entry is of the selected kind and validated |
| Quiz.Grade | app.py:58-71 | MCQ: correct exactly when the answer equals the correct answer verbatim, and the options are kept; fill-in-the-blank: correct exactly when both sides are equal after strip and lower, and the options list is empty |
| Quiz.GradeFrom | app.py:57-72 | pairs questions and answers by position, truncating to the shorter list, numbering consecutively |
| Quiz.EvaluateQuiz | app.py:55-72 | results are rebuilt: `min(len(questions), len(user_answers))` of them, result i numbered i+1 and graded from question i and answer i; questions and answers unchanged |
| Quiz.EvaluateQuizIdempotent | app.py:56 | grading twice equals grading once, and stale results never matter |
| Quiz.FillBlankGradeIgnoresPadding | app.py:71 | whitespace around a fill-in-the-blank answer does not change its grade |
| Quiz.FillBlankGradeIgnoresCase | app.py:71 | fill-in-the-blank answers that differ only in letter case get the same grade |
| Text.StripPadded | app.py:71 | surrounding a string with whitespace does not change its `strip()` |
| Text.LowerStrip | app.py:71 | `strip()` and `lower()` commute |
| Text.Strip | app.py:71 | the stripped string is a window of the input with only whitespace around it, and it neither starts nor ends with whitespace |
| Text.Lower | app.py:71 | same length, every character lowered, no upper-case ASCII letter left |
| Quiz.CountCorrectIsSize | app.py:155 | the running count of correct results is the number of positions marked correct |
| Quiz.Score | app.py:155-156 | `correct` is the number of results marked correct and `total` the number of results, so 0 <= correct <= total |
| Quiz.AttemptQuiz | app.py:42-53 | each rendering of the answer form appends one answer per question to the answers kept so far |
| Quiz.StaleAnswersGraded | app.py:44-57 | after two renderings, grading uses the answers of the first one |
| Quiz.StaleAnswerCounterexample | app.py:50-68 | the first rendering shows the default option, the user picks the right one, and the answer is still graded wrong |
| Quiz.RecordAnswers | app.py:42-53 | corrected: a rendering replaces the answers with the current form values |
| Quiz.LatestAnswersGraded | app.py:55-72 | corrected: grading uses the latest answers, one per question |
| Scenarios.NoMarkerRejected | utils.py:112-115 | a question with no `___` at all fails with the missing-blank message |
| Scenarios.FillBlankScenario | app.py:69-71 | " paris " is graded right for "Paris" |
| Scenarios.McqScenario | app.py:66-68 | "paris" is graded wrong for the option "Paris" |
| Scenarios.ThreeMcqScenario | app.py:55-72 | three MCQs with two right answers: 2 correct of 3, and exactly the wrong one is marked so |
| Scenarios.ThirdAcquisitionFails | app.py:18-40 | when the third generator call raises, the call returns false and the 2 entries appended before it remain |

## Left out

- Prompt templates, the `ChatGroq` call and `PydanticOutputParser`: these are foreign library calls. A model call is a `Reply`, and the parser is a function parameter.
- The `clean_question` pre-validator (utils.py:22-26, 32-36) is library-level coercion of the raw JSON value into a string, so it is not modelled. The records hold strings already.
- API-key loading in `QuestionGenerator.__init__`: environment and secrets I/O.
- Streamlit rendering, widgets and session flags (`main` layout, `quiz_generated`, `quiz_submitted`). Only the way `attempt_quiz` grows `user_answers` is modelled, for the finding below.
- `save_to_csv`, `save_to_pdf`, `generate_result_dataframe`: file and PDF I/O.
- The score percentage and the pie chart: floating point and plotting.
- `strip()` and `lower()` beyond ASCII. Only the ASCII whitespace that `str.isspace` accepts and the letters A-Z are modelled. Unicode whitespace and case folding are not.
- `Text.ReplaceAll` requires a non-empty pattern. The source only replaces `___`, and Python's meaning for an empty pattern is not needed.
- The topic and difficulty arguments only shape the prompt, which the replies stand for. `difficulty.lower()` is not modelled.
- The LLM call count of a whole `generate_questions` run is not modelled. The session sees each generator call's result. The per-call bound of three model calls is proved in `Acquisition`.
- `num_questions` is a natural number; the number input only allows 1 to 20.
- The retry models and `ModelGenerator` require at least three replies per generator call. That many replies are what the model would give to the calls the loop may make, not a demand on callers.

## Findings

| source | as written | input that shows it | evidently intended | confidence | as-written member | corrected member |
|---|---|---|---|---|---|---|
| app.py:42-57 | `attempt_quiz` appends one answer per question on every rerun of the page, and `generate_questions` is the only place `user_answers` is cleared; `evaluate_quiz` zips the questions with the first answers, those of the first rendering after generation | one MCQ with correct answer "b": the first rendering records the default "a", the user selects "b", and the submit rerun appends "b"; grading compares "a" and marks it wrong | grade the answers currently in the form, one per question | medium, not executed (depends on Streamlit rerunning the script on each interaction) | Quiz.StaleAnswerCounterexample | Quiz.LatestAnswersGraded |
