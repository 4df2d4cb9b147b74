/** The game controller's rules as pure transitions: each maps the state
    record before an event to the record after it, the way the source's
    `setGameState(prev => ...)` updaters do. */
module Game {
  import opened Types
  import opened Text

  /** The record the controller starts with: loading, nothing fetched yet. */
  function Initial(): (s: GameState)
    ensures Consistent(s) && s.isLoading && View(s) == LoadingView
  {
    GameState(0, [], [], TimerDuration, false, true, None)
  }

  /** The facts every state reachable from `Initial` satisfies. */
  predicate Consistent(s: GameState)
  {
    && |s.answers| == s.currentQuestionIndex
    && s.currentQuestionIndex <= |s.questions|
    && 0 <= s.timeRemaining <= TimerDuration
    && (s.isGameComplete <==> 0 < s.currentQuestionIndex == |s.questions|)
    && (s.isLoading ==> s.questions == [] && s.currentQuestionIndex == 0 && s.error == None)
    && (s.error.Some? ==> s.questions == [] && !s.isLoading)
    && forall k :: 0 <= k < |s.answers| ==>
         s.answers[k].questionId == s.questions[k].id && 0 <= s.answers[k].timeSpent <= TimerDuration
  }

  // ---------------------------------------------------------------- scoring

  /** `answer.every((word, index) => lower(word) === lower(correct[index]))`.
      Reading `correct[index]` past its end gives `undefined`, and calling
      `toLowerCase` on it raises a TypeError; `every` stops at the first miss. */
  function IsCorrect(answer: seq<string>, correct: seq<string>): (r: Result<bool>)
    ensures r == Ok(true) <==>
      |answer| <= |correct| && forall i :: 0 <= i < |answer| ==> Lower(answer[i]) == Lower(correct[i])
    ensures r == Ok(false) <==>
      exists i :: 0 <= i < |answer| && i < |correct| && Lower(answer[i]) != Lower(correct[i])
    ensures r.Err? <==>
      |correct| < |answer| && forall i :: 0 <= i < |correct| ==> Lower(answer[i]) == Lower(correct[i])
    ensures r.Err? ==> r.fault == TypeError
  {
    if answer == [] then Ok(true)
    else if correct == [] then Err(TypeError)
    else if Lower(answer[0]) != Lower(correct[0]) then Ok(false)
    else
      var r := IsCorrect(answer[1..], correct[1..]);
      assert forall i :: 1 <= i < |answer| ==> answer[i] == answer[1..][i - 1];
      assert forall i :: 1 <= i < |correct| ==> correct[i] == correct[1..][i - 1];
      r
  }

  /** Typing the correct words in any mix of letter case scores correct. */
  lemma CaseInsensitiveScoring(answer: seq<string>, correct: seq<string>)
    requires |answer| == |correct|
    requires forall i :: 0 <= i < |answer| ==> CaseVariant(answer[i], correct[i])
    ensures IsCorrect(answer, correct) == Ok(true)
  {
  }

  /** Replacing one word by a word that lower-cases differently scores incorrect. */
  lemma OneWrongWordScoresIncorrect(correct: seq<string>, k: nat, w: string)
    requires k < |correct| && Lower(w) != Lower(correct[k])
    ensures IsCorrect(correct[k := w], correct) == Ok(false)
  {
  }

  /** Positions past the submitted list are never compared: a prefix of the
      correct words, the empty list included, scores correct. */
  lemma PrefixScoresCorrect(correct: seq<string>, n: nat)
    requires n <= |correct|
    ensures IsCorrect(correct[..n], correct) == Ok(true)
  {
  }

  // ---------------------------------------------------------------- transitions

  /** One tick of the countdown: while time is left, it drops by one second;
      at zero the state is returned unchanged (and time-up is triggered). */
  function Tick(s: GameState): (r: GameState)
    ensures r == s.(timeRemaining := r.timeRemaining)
    ensures s.timeRemaining > 0 ==> r.timeRemaining == s.timeRemaining - 1
    ensures s.timeRemaining <= 0 ==> r == s
    ensures Consistent(s) ==> Consistent(r)
  {
    if s.timeRemaining <= 0 then s
    else s.(timeRemaining := s.timeRemaining - 1)
  }

  /** Whether the countdown is over, so the next timer event is a time-up. */
  predicate Expired(s: GameState)
  {
    s.timeRemaining <= 0
  }

  /** `n` consecutive ticks. */
  function Ticks(s: GameState, n: nat): GameState
    decreases n
  {
    if n == 0 then s else Ticks(Tick(s), n - 1)
  }

  /** After `n` ticks only the countdown has moved: down by `n`, stopping at zero. */
  lemma {:induction false} TicksCountDown(s: GameState, n: nat)
    ensures Ticks(s, n) == s.(timeRemaining := Ticks(s, n).timeRemaining)
    ensures s.timeRemaining <= 0 ==> Ticks(s, n) == s
    ensures s.timeRemaining > 0 ==>
      Ticks(s, n).timeRemaining == if n <= s.timeRemaining then s.timeRemaining - n else 0
    ensures Consistent(s) ==> Consistent(Ticks(s, n))
    decreases n
  {
    if n > 0 {
      TicksCountDown(Tick(s), n - 1);
    }
  }

  /** The answer submitted when time runs out: one empty string per blank. */
  function EmptyWords(n: nat): (r: seq<string>)
    ensures |r| == n && forall i :: 0 <= i < n ==> r[i] == ""
  {
    seq(n, _ => "")
  }

  /** `handleAnswer(answer)`: score the answer against the current question,
      record it, advance to the next question and restart the countdown.
      Reading a question past the end of the list raises a TypeError. */
  function Answer(s: GameState, answer: seq<string>): (r: Result<GameState>)
    ensures s.currentQuestionIndex >= |s.questions| ==> r == Err(TypeError)
    ensures s.currentQuestionIndex < |s.questions| ==>
      var q := s.questions[s.currentQuestionIndex];
      && (r.Err? <==> IsCorrect(answer, q.correctAnswer).Err?)
      && (r.Ok? ==> r.value == s.(
            answers := s.answers + [QuestionResponse(q.id, answer, IsCorrect(answer, q.correctAnswer).value,
                                                     TimerDuration - s.timeRemaining)],
            currentQuestionIndex := s.currentQuestionIndex + 1,
            timeRemaining := TimerDuration,
            isGameComplete := s.currentQuestionIndex + 1 >= |s.questions|))
    ensures Consistent(s) && r.Ok? ==> Consistent(r.value)
  {
    if s.currentQuestionIndex >= |s.questions| then Err(TypeError)
    else
      var q := s.questions[s.currentQuestionIndex];
      match IsCorrect(answer, q.correctAnswer)
      case Err(f) => Err(f)
      case Ok(isCorrect) =>
        var response := QuestionResponse(q.id, answer, isCorrect, TimerDuration - s.timeRemaining);
        Ok(s.(answers := s.answers + [response],
              currentQuestionIndex := s.currentQuestionIndex + 1,
              timeRemaining := TimerDuration,
              isGameComplete := s.currentQuestionIndex + 1 >= |s.questions|))
  }

  /** `handleTimeUp()`: submit one empty string per blank of the current
      question. `Array(blanks)` raises a RangeError for a length that is
      negative or above 2^32 - 1. */
  function TimeUp(s: GameState): (r: Result<GameState>)
    ensures s.currentQuestionIndex >= |s.questions| ==> r == Err(TypeError)
    ensures s.currentQuestionIndex < |s.questions| ==>
      var b := s.questions[s.currentQuestionIndex].blanks;
      if 0 <= b <= MaxArrayLength then r == Answer(s, EmptyWords(b)) else r == Err(RangeError)
    ensures Consistent(s) && r.Ok? ==> Consistent(r.value)
  {
    if s.currentQuestionIndex >= |s.questions| then Err(TypeError)
    else
      var b := s.questions[s.currentQuestionIndex].blanks;
      if b < 0 || b > MaxArrayLength then Err(RangeError)
      else Answer(s, EmptyWords(b))
  }

  /** A timer event: a tick while time is left, a time-up once it has run out. */
  function OnTimer(s: GameState): (r: Result<GameState>)
    ensures !Expired(s) ==> r == Ok(Tick(s))
    ensures Expired(s) ==> r == TimeUp(s)
    ensures Consistent(s) && r.Ok? ==> Consistent(r.value)
  {
    if Expired(s) then TimeUp(s) else Ok(Tick(s))
  }

  /** `handleRestart()`: a fresh game over the questions already fetched. */
  function Restart(s: GameState): (r: GameState)
    ensures Consistent(r)
    ensures r.questions == s.questions && r.answers == [] && r.currentQuestionIndex == 0
    ensures r.timeRemaining == TimerDuration && !r.isGameComplete && !r.isLoading && r.error == None
  {
    GameState(0, s.questions, [], TimerDuration, false, false, None)
  }

  /** A value caught by the fetch's `catch`: an `Error` object, or anything else. */
  datatype Thrown = ErrorObject(message: string) | OtherValue

  /** How the one fetch of the question list ended. */
  datatype FetchOutcome =
    | Received(data: seq<Question>)  // response ok and body parsed
    | NotOk                          // response.ok was false
    | Threw(thrown: Thrown)          // the request or the body parsing raised

  const NotOkMessage: string := "Failed to fetch questions"
  const GenericMessage: string := "An error occurred"

  /** The message stored for a caught value. */
  function ErrorMessage(t: Thrown): (m: string)
    ensures t.ErrorObject? ==> m == t.message
    ensures t.OtherValue? ==> m == GenericMessage
  {
    match t
    case ErrorObject(msg) => msg
    case OtherValue => GenericMessage
  }

  /** The state effects of `fetchQuestions`. Success stores the list, stops
      loading and restarts the countdown, leaving `isGameComplete` as it was;
      failure stores a message and stops loading. */
  function FetchDone(s: GameState, o: FetchOutcome): (r: GameState)
    ensures !r.isLoading && r.isGameComplete == s.isGameComplete
    ensures r.currentQuestionIndex == s.currentQuestionIndex && r.answers == s.answers
    ensures o.Received? ==> r == s.(questions := o.data, isLoading := false, timeRemaining := TimerDuration)
    ensures o.NotOk? ==> r == s.(error := Some(NotOkMessage), isLoading := false)
    ensures o.Threw? ==> r == s.(error := Some(ErrorMessage(o.thrown)), isLoading := false)
    ensures Consistent(s) && s.isLoading ==> Consistent(r)
  {
    match o
    case Received(data) => s.(questions := data, isLoading := false, timeRemaining := TimerDuration)
    case NotOk => s.(error := Some(NotOkMessage), isLoading := false)
    case Threw(t) => s.(error := Some(ErrorMessage(t)), isLoading := false)
  }

  // ---------------------------------------------------------------- rendering

  /** What the controller renders. */
  datatype Screen =
    | LoadingView
    | ErrorView(message: string)
    | CompleteView
    | QuestionView(index: nat, timeRemaining: int)

  /** The render branches in their fixed order: loading, then a (truthy, so
      non-empty) error, then the results page, then the current question. */
  function View(s: GameState): (v: Screen)
    ensures v == LoadingView <==> s.isLoading
    ensures v.ErrorView? <==> !s.isLoading && s.error.Some? && s.error.value != ""
    ensures v == CompleteView <==> !s.isLoading && !(s.error.Some? && s.error.value != "") && s.isGameComplete
    ensures v.ErrorView? ==> v.message == s.error.value
    ensures v.QuestionView? ==> v.index == s.currentQuestionIndex && v.timeRemaining == s.timeRemaining
  {
    if s.isLoading then LoadingView
    else if s.error.Some? && s.error.value != "" then ErrorView(s.error.value)
    else if s.isGameComplete then CompleteView
    else QuestionView(s.currentQuestionIndex, s.timeRemaining)
  }

  /** The countdown interval exists only while this holds. */
  predicate TimerRunning(s: GameState)
  {
    !s.isGameComplete && |s.questions| > 0 && !s.isLoading
  }
}
