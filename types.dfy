/** The records of the quiz: questions as served, the responses the player
    gives, and the single state record of the game controller. */
module Types {

  /** Length of one question's countdown, in seconds. */
  const TimerDuration: int := 30

  /** The largest length the JavaScript `Array(n)` constructor accepts (2^32 - 1). */
  const MaxArrayLength: int := 0xFFFF_FFFF

  /** A fill-in-the-blank question; `correctAnswer` holds one word per blank, in order. */
  datatype Question = Question(
    id: int,
    sentence: string,
    options: seq<string>,
    correctAnswer: seq<string>,
    blanks: int)

  /** What was recorded when a question was answered or timed out. */
  datatype QuestionResponse = QuestionResponse(
    questionId: int,
    userAnswer: seq<string>,
    isCorrect: bool,
    timeSpent: int)

  datatype Option<T> = None | Some(value: T)

  /** The controller's state; `error == None` stands for `null`. */
  datatype GameState = GameState(
    currentQuestionIndex: nat,
    questions: seq<Question>,
    answers: seq<QuestionResponse>,
    timeRemaining: int,
    isGameComplete: bool,
    isLoading: bool,
    error: Option<string>)

  /** The JavaScript exception an operation would raise. */
  datatype Fault = TypeError | RangeError

  /** Either the value an operation computes or the exception it raises. */
  datatype Result<T> = Ok(value: T) | Err(fault: Fault)
}
