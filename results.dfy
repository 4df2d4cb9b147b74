/** The results page shown when the game is over: score, total, accuracy and
    one review row per question. Everything here is a pure function of the
    question list and the recorded responses. */
module Results {
  import opened Types
  import opened Text

  /** Separator the review rows put between words. */
  const WordSeparator: string := ", "

  /** Text shown in place of an empty user answer. */
  const NoAnswer: string := "No answer"

  /** `answers.filter(a => a.isCorrect)`: the correct responses, in order. */
  function CorrectResponses(answers: seq<QuestionResponse>): (r: seq<QuestionResponse>)
    ensures |r| <= |answers|
    ensures forall k :: 0 <= k < |r| ==> r[k].isCorrect && r[k] in answers
    ensures forall x :: x in answers && x.isCorrect ==> x in r
    ensures multiset(r) <= multiset(answers)
    ensures |r| == |answers| <==> forall i :: 0 <= i < |answers| ==> answers[i].isCorrect
    ensures r == [] <==> forall i :: 0 <= i < |answers| ==> !answers[i].isCorrect
  {
    if answers == [] then []
    else
      var rest := CorrectResponses(answers[1..]);
      var r := if answers[0].isCorrect then [answers[0]] + rest else rest;
      FilterStepElements(answers[0], answers[1..], rest, r);
      FilterStepLength(answers[0], answers[1..], rest, r);
      assert answers == [answers[0]] + answers[1..];
      r
  }

  /** The inductive step of the filter for its element properties: keeping
      or dropping the head of `[head] + tail` keeps exactly the correct ones. */
  lemma FilterStepElements(head: QuestionResponse, tail: seq<QuestionResponse>, rest: seq<QuestionResponse>, r: seq<QuestionResponse>)
    requires multiset(rest) <= multiset(tail)
    requires forall k :: 0 <= k < |rest| ==> rest[k].isCorrect
    requires forall x :: x in tail && x.isCorrect ==> x in rest
    requires r == if head.isCorrect then [head] + rest else rest
    ensures multiset(r) <= multiset([head] + tail)
    ensures forall k :: 0 <= k < |r| ==> r[k].isCorrect && r[k] in [head] + tail
    ensures forall x :: x in [head] + tail && x.isCorrect ==> x in r
  {
    assert forall k :: 0 <= k < |rest| ==> rest[k] in multiset(tail);
    if head.isCorrect {
      assert forall k :: 1 <= k < |r| ==> r[k] == rest[k - 1];
    }
  }

  /** The inductive step of the filter for its length: nothing is dropped
      exactly when all are correct, everything exactly when none is. */
  lemma FilterStepLength(head: QuestionResponse, tail: seq<QuestionResponse>, rest: seq<QuestionResponse>, r: seq<QuestionResponse>)
    requires |rest| <= |tail|
    requires |rest| == |tail| <==> forall i :: 0 <= i < |tail| ==> tail[i].isCorrect
    requires rest == [] <==> forall i :: 0 <= i < |tail| ==> !tail[i].isCorrect
    requires r == if head.isCorrect then [head] + rest else rest
    ensures |r| <= |[head] + tail|
    ensures |r| == |[head] + tail| <==> forall i :: 0 <= i < |[head] + tail| ==> ([head] + tail)[i].isCorrect
    ensures r == [] <==> forall i :: 0 <= i < |[head] + tail| ==> !([head] + tail)[i].isCorrect
  {
    var all := [head] + tail;
    assert all[0] == head;
    assert forall i :: 1 <= i < |all| ==> all[i] == tail[i - 1];
    if forall i :: 0 <= i < |all| ==> all[i].isCorrect {
      assert forall i :: 0 <= i < |tail| ==> tail[i] == all[i + 1];
    }
    if forall i :: 0 <= i < |all| ==> !all[i].isCorrect {
      assert forall i :: 0 <= i < |tail| ==> tail[i] == all[i + 1];
    }
  }

  /** Filtering keeps order: filtering a longer list extends the filtered
      prefix by the new response exactly when it is correct. */
  lemma {:induction false} CorrectResponsesAppend(answers: seq<QuestionResponse>, x: QuestionResponse)
    ensures CorrectResponses(answers + [x]) ==
      CorrectResponses(answers) + (if x.isCorrect then [x] else [])
  {
    if answers == [] {
      assert answers + [x] == [x];
      assert [x][1..] == [];
    } else {
      assert (answers + [x])[1..] == answers[1..] + [x];
      CorrectResponsesAppend(answers[1..], x);
    }
  }

  /** The number of correct responses. */
  function Score(answers: seq<QuestionResponse>): (r: nat)
    ensures r <= |answers|
    ensures r == |answers| <==> forall i :: 0 <= i < |answers| ==> answers[i].isCorrect
    ensures r == 0 <==> forall i :: 0 <= i < |answers| ==> !answers[i].isCorrect
  {
    |CorrectResponses(answers)|
  }

  /** Recording one more response raises the score by one exactly when it is correct. */
  lemma {:induction false} ScoreAppend(answers: seq<QuestionResponse>, x: QuestionResponse)
    ensures Score(answers + [x]) == Score(answers) + (if x.isCorrect then 1 else 0)
  {
    CorrectResponsesAppend(answers, x);
  }

  /** The number of questions; the responses play no part in it. */
  function Total(questions: seq<Question>): (r: nat)
    ensures r == 0 <==> questions == []
  {
    |questions|
  }

  /** `score / total * 100` as JavaScript evaluates it, kept exact:
      a ratio when `total > 0`, otherwise `NaN` (0/0) or `Infinity`. */
  datatype Percentage = Exact(num: nat, den: nat) | NaN | Infinity

  function Accuracy(score: nat, total: nat): (p: Percentage)
    ensures total > 0 ==> p.Exact? && p.num * total == score * 100 * p.den
    ensures total > 0 && score <= total ==> p.num <= 100 * p.den
    ensures total > 0 ==> (p.num == 100 * p.den <==> score == total)
    ensures total > 0 ==> (p.num == 0 <==> score == 0)
    ensures total == 0 ==> (p.NaN? <==> score == 0) && (p.Infinity? <==> score > 0)
  {
    if total > 0 then Exact(score * 100, total)
    else if score == 0 then NaN
    else Infinity
  }

  /** The two lines shown under an incorrectly answered question. */
  datatype Details = Details(correctAnswerText: string, userAnswerText: string)

  /** One review row: the question, its response, and what is displayed. */
  datatype ReviewRow = ReviewRow(
    number: nat,
    question: Question,
    response: QuestionResponse,
    correct: bool,
    timeSpent: int,
    details: Option<Details>)

  /** The correct words joined with ", ". */
  function CorrectAnswerText(q: Question): (r: string)
    ensures r == Join(q.correctAnswer, WordSeparator)
    ensures |q.correctAnswer| == 1 ==> r == q.correctAnswer[0]
    ensures q.correctAnswer != [] ==>
      |r| == TotalLength(q.correctAnswer) + (|q.correctAnswer| - 1) * |WordSeparator|
  {
    Join(q.correctAnswer, WordSeparator)
  }

  /** The user's words joined with ", ", or "No answer" when that join is empty. */
  function UserAnswerText(userAnswer: seq<string>): (r: string)
    ensures userAnswer == [] || userAnswer == [""] ==> r == NoAnswer
    ensures !(userAnswer == [] || userAnswer == [""]) ==> r == Join(userAnswer, WordSeparator) && r != ""
  {
    JoinEmpty(userAnswer, WordSeparator);
    var joined := Join(userAnswer, WordSeparator);
    if joined == "" then NoAnswer else joined
  }

  /** The row for question `q` at 0-based position `index`, answered by `a`. */
  function Row(q: Question, a: QuestionResponse, index: nat): (r: ReviewRow)
    ensures r.number == index + 1 && r.question == q && r.response == a
    ensures r.correct == a.isCorrect && r.timeSpent == a.timeSpent
    ensures r.details.Some? <==> !a.isCorrect
    ensures r.details.Some? ==>
      r.details.value == Details(CorrectAnswerText(q), UserAnswerText(a.userAnswer))
  {
    ReviewRow(index + 1, q, a, a.isCorrect, a.timeSpent,
      if a.isCorrect then None
      else Some(Details(CorrectAnswerText(q), UserAnswerText(a.userAnswer))))
  }

  /** `questions.map((question, index) => ...answers[index]...)`: reading
      `answers[index].isCorrect` fails when there are fewer responses than questions. */
  function Rows(questions: seq<Question>, answers: seq<QuestionResponse>): (r: Result<seq<ReviewRow>>)
    ensures r.Ok? <==> |answers| >= |questions|
    ensures r.Err? ==> r.fault == TypeError
    ensures r.Ok? ==> |r.value| == |questions|
    ensures r.Ok? ==> forall i :: 0 <= i < |questions| ==> r.value[i] == Row(questions[i], answers[i], i)
    ensures r.Ok? ==> forall i :: 0 <= i < |questions| ==>
      && r.value[i].number == i + 1
      && r.value[i].question == questions[i] && r.value[i].response == answers[i]
      && r.value[i].correct == answers[i].isCorrect
      && (r.value[i].details.Some? <==> !answers[i].isCorrect)
  {
    if |answers| < |questions| then Err(TypeError)
    else Ok(seq(|questions|, i requires 0 <= i < |questions| => Row(questions[i], answers[i], i)))
  }

  /** The figures at the top of the page. */
  datatype Summary = Summary(score: nat, total: nat, accuracy: Percentage)

  function Summarize(questions: seq<Question>, answers: seq<QuestionResponse>): (r: Summary)
    ensures r.score == Score(answers) && r.accuracy == Accuracy(r.score, r.total)
    ensures r.score <= |answers| && r.total == |questions|
    ensures r.score == |answers| <==> forall i :: 0 <= i < |answers| ==> answers[i].isCorrect
    ensures r.total > 0 && r.score <= r.total ==>
      r.accuracy.Exact? && r.accuracy.num <= 100 * r.accuracy.den
    ensures r.total == 0 ==> !r.accuracy.Exact?
  {
    var score := Score(answers);
    var total := Total(questions);
    Summary(score, total, Accuracy(score, total))
  }

  /** Examples of the "No answer" fallback: only `[]` and `[""]` use it. */
  lemma NoAnswerExamples()
    ensures UserAnswerText([]) == NoAnswer
    ensures UserAnswerText([""]) == NoAnswer
    ensures UserAnswerText(["", ""]) == ", "
    ensures UserAnswerText(["sat"]) == "sat"
  {
  }

  /** A two-word correct answer is shown as the words separated by ", ". */
  lemma TwoWordCorrectAnswerText()
    ensures CorrectAnswerText(Question(2, "The dog ___ ___ the rug.", ["is", "on", "in"], ["is", "on"], 2))
      == "is, on"
  {
  }
}
