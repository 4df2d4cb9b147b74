/** The game controller as the source runs it: one state cell that the
    fetch, the recurring timer and the button handlers overwrite in turn,
    each update being one of the transitions of module Game. The lemmas at
    the end connect the controller's invariant to the results page. */
module App {
  import opened Types
  import opened Text
  import opened Results
  import opened Game

  /** The state after a handler ran: its new state, or the old one when it raised. */
  function Commit(s: GameState, r: Result<GameState>): (t: GameState)
    ensures r.Ok? ==> t == r.value
    ensures r.Err? ==> t == s
  {
    match r
    case Ok(next) => next
    case Err(_) => s
  }

  /** The exception a handler raised, if any. */
  function FaultOf(r: Result<GameState>): (f: Option<Fault>)
    ensures f.None? <==> r.Ok?
    ensures r.Err? ==> f == Some(r.fault)
  {
    match r
    case Ok(_) => None
    case Err(e) => Some(e)
  }

  class Controller {
    var state: GameState

    ghost predicate Valid()
      reads this
    {
      Consistent(state)
    }

    /** The state the component is mounted with. */
    constructor ()
      ensures Valid() && state == Initial()
    {
      state := Initial();
    }

    /** The fetch issued at mount has ended (it runs once, while loading). */
    method FetchDone(o: FetchOutcome)
      requires Valid() && state.isLoading
      modifies this
      ensures Valid() && state == Game.FetchDone(old(state), o)
    {
      state := Game.FetchDone(state, o);
    }

    /** One firing of the one-second interval, which exists only while a
        question is being played: a tick, or the time-up once time has run out. */
    method Tick() returns (fault: Option<Fault>)
      requires Valid() && TimerRunning(state)
      modifies this
      ensures Valid() && state == Commit(old(state), OnTimer(old(state)))
      ensures fault == FaultOf(OnTimer(old(state)))
    {
      var r := OnTimer(state);
      state := Commit(state, r);
      fault := FaultOf(r);
    }

    /** The player submitted `answer` for the current question. */
    method Answer(answer: seq<string>) returns (fault: Option<Fault>)
      requires Valid()
      modifies this
      ensures Valid() && state == Commit(old(state), Game.Answer(old(state), answer))
      ensures fault == FaultOf(Game.Answer(old(state), answer))
    {
      var r := Game.Answer(state, answer);
      state := Commit(state, r);
      fault := FaultOf(r);
    }

    /** The current question's time ran out. */
    method TimeUp() returns (fault: Option<Fault>)
      requires Valid()
      modifies this
      ensures Valid() && state == Commit(old(state), Game.TimeUp(old(state)))
      ensures fault == FaultOf(Game.TimeUp(old(state)))
    {
      var r := Game.TimeUp(state);
      state := Commit(state, r);
      fault := FaultOf(r);
    }

    /** "Play Again": a fresh game over the questions already fetched. */
    method Restart()
      requires Valid()
      modifies this
      ensures Valid() && state == Game.Restart(old(state))
      ensures state.questions == old(state.questions)
    {
      state := Game.Restart(state);
    }
  }

  // ---------------------------------------------------------------- properties

  /** In every consistent state one response has been recorded per question
      passed, and the game is complete exactly when every question of a
      non-empty list has been answered. */
  lemma CompleteExactlyWhenAllAnswered(s: GameState)
    requires Consistent(s)
    ensures |s.answers| == s.currentQuestionIndex
    ensures s.isGameComplete <==> |s.questions| > 0 && |s.answers| == |s.questions|
  {
  }

  /** While the interval runs, the current question exists, so neither the
      tick nor the time-up can fail for want of a question. */
  lemma TimerRunningHasQuestion(s: GameState)
    requires Consistent(s) && TimerRunning(s)
    ensures s.currentQuestionIndex < |s.questions|
  {
  }

  /** An answer of the current question with the correct words in any letter
      case is recorded as correct and raises the score by one. */
  lemma CorrectAnswerRaisesScore(s: GameState, answer: seq<string>)
    requires Consistent(s) && s.currentQuestionIndex < |s.questions|
    requires |answer| == |s.questions[s.currentQuestionIndex].correctAnswer|
    requires forall i :: 0 <= i < |answer| ==>
      CaseVariant(answer[i], s.questions[s.currentQuestionIndex].correctAnswer[i])
    ensures Answer(s, answer).Ok?
    ensures Answer(s, answer).value.answers[s.currentQuestionIndex].isCorrect
    ensures Score(Answer(s, answer).value.answers) == Score(s.answers) + 1
  {
    var q := s.questions[s.currentQuestionIndex];
    CaseInsensitiveScoring(answer, q.correctAnswer);
    var r := Answer(s, answer).value;
    ScoreAppend(s.answers, r.answers[|r.answers| - 1]);
    assert r.answers == s.answers + [r.answers[|r.answers| - 1]];
  }

  /** The time-up of a question whose first correct word is not empty is
      recorded as incorrect, after `30 - timeRemaining` seconds, and leaves
      the score as it was. */
  lemma TimeUpScoresIncorrect(s: GameState)
    requires Consistent(s) && s.currentQuestionIndex < |s.questions|
    requires 1 <= s.questions[s.currentQuestionIndex].blanks <= MaxArrayLength
    requires |s.questions[s.currentQuestionIndex].correctAnswer| >= 1
    requires s.questions[s.currentQuestionIndex].correctAnswer[0] != ""
    ensures TimeUp(s).Ok?
    ensures var r := TimeUp(s).value;
      && |r.answers| == |s.answers| + 1
      && !r.answers[|s.answers|].isCorrect
      && r.answers[|s.answers|].timeSpent == TimerDuration - s.timeRemaining
      && r.answers[|s.answers|].userAnswer == EmptyWords(s.questions[s.currentQuestionIndex].blanks)
      && Score(r.answers) == Score(s.answers)
  {
    var q := s.questions[s.currentQuestionIndex];
    var words := EmptyWords(q.blanks);
    assert Lower(words[0]) != Lower(q.correctAnswer[0]);
    assert IsCorrect(words, q.correctAnswer) == Ok(false);
    var r := TimeUp(s).value;
    ScoreAppend(s.answers, r.answers[|s.answers|]);
    assert r.answers == s.answers + [r.answers[|s.answers|]];
  }

  /** A question left to run its full countdown: thirty ticks bring the time
      to zero, and the next timer event records the time-up with 30 seconds
      spent. */
  lemma {:induction false} FullCountdownRecordsDuration(s: GameState)
    requires Consistent(s) && TimerRunning(s) && s.timeRemaining == TimerDuration
    requires 0 <= s.questions[s.currentQuestionIndex].blanks <= MaxArrayLength
    requires IsCorrect(EmptyWords(s.questions[s.currentQuestionIndex].blanks),
                       s.questions[s.currentQuestionIndex].correctAnswer).Ok?
    ensures var t := Ticks(s, TimerDuration);
      && t == s.(timeRemaining := 0)
      && Expired(t)
      && OnTimer(t).Ok?
      && OnTimer(t).value.answers[s.currentQuestionIndex].timeSpent == TimerDuration
  {
    TimerRunningHasQuestion(s);
    TicksCountDown(s, TimerDuration);
    var t := Ticks(s, TimerDuration);
    assert t == s.(timeRemaining := 0);
  }

  /** On the results page the review rows can be built, each pairs a question
      with the response recorded for it, and the accuracy is a ratio between
      0 and 100 (a page with no questions is never reached). */
  lemma CompleteViewIsWellDefined(s: GameState)
    requires Consistent(s) && View(s) == CompleteView
    ensures Rows(s.questions, s.answers).Ok?
    ensures forall i :: 0 <= i < |s.questions| ==>
      Rows(s.questions, s.answers).value[i].response.questionId == s.questions[i].id
    ensures var sum := Summarize(s.questions, s.answers);
      sum.accuracy.Exact? && sum.accuracy.num <= 100 * sum.accuracy.den
  {
  }

  /** An empty question list leaves the game neither loading nor complete:
      the question screen is shown for index 0. */
  lemma EmptyListIsNotComplete()
    ensures var s := Game.FetchDone(Initial(), Received([]));
      Consistent(s) && !s.isGameComplete && View(s) == QuestionView(0, TimerDuration)
  {
  }

  /** The sentence "The cat ___ on the mat." with correct answer ["sat"]:
      "Sat" scores correct, the time-up scores incorrect. */
  lemma CatSatExample()
    ensures var q := Question(1, "The cat ___ on the mat.", ["sat", "sits"], ["sat"], 1);
      var s := Game.FetchDone(Initial(), Received([q]));
      && Answer(s, ["Sat"]).Ok?
      && Answer(s, ["Sat"]).value.answers == [QuestionResponse(1, ["Sat"], true, 0)]
      && Answer(s, ["Sat"]).value.isGameComplete
      && TimeUp(s).Ok?
      && TimeUp(s).value.answers == [QuestionResponse(1, [""], false, 0)]
  {
    var q := Question(1, "The cat ___ on the mat.", ["sat", "sits"], ["sat"], 1);
    assert Lower("Sat") == "sat";
    assert Lower("sat") == "sat";
    assert EmptyWords(1) == [""];
  }
}
