# Sentence Construction quiz — verified model of the game controller and results page

The quiz shows fill-in-the-blank sentences one at a time. Each question has a
30-second countdown. The player's words are scored against the correct words,
position by position and ignoring letter case. When the last question has been
answered, a results page shows the score, the accuracy and a review of every
question.

This project models two parts of the front end:

- **The game controller** (`src/App.tsx`). One `GameState` record is replaced
  wholesale by five events: the fetch completing, a timer tick, an answer, a
  time-up and a restart. Module `Game` gives each event as a pure transition
  function on the record. Module `App` holds the stateful controller: class
  `Controller` has one `state` field and one method per event, and each
  method is specified by its transition. `Game.Consistent` is the invariant
  every reachable state keeps. It says:
  - one response has been recorded per question passed;
  - the index never passes the end of the list;
  - the countdown stays within 0..30;
  - the game is complete exactly when a non-empty list has been fully answered;
  - response `k` belongs to question `k`.
- **The results page** (`src/components/GameComplete.tsx`), module `Results`.
  It covers the score, the total, the accuracy, the review rows, and the
  answer texts with the `"No answer"` fallback.

Module `Types` holds the records (`src/types/index.ts`). Module `Text` holds
ASCII lower-casing and `Array.prototype.join`.

JavaScript exceptions are modelled as values: `Result<T> = Ok(value) | Err(fault)`,
where `fault` is `TypeError` or `RangeError`. Each point where the source would throw is modelled:
- the `every` callback reads `correctAnswer[index]` past its end;
- `questions[currentQuestionIndex]` is `undefined`;
- `Array(blanks)` gets an invalid length;
- the results page reads `answers[index]` past its end.

A handler that raises leaves the state cell unchanged (`App.Commit`).

Behaviours of the code that the model keeps:
- With zero questions, the fetch leaves `isGameComplete` false, so the
  question screen is shown (`App.EmptyListIsNotComplete`).
- For zero questions, accuracy is `0/0`, which JavaScript evaluates to `NaN`
  (`Results.Accuracy`). `App.CompleteViewIsWellDefined` proves that the
  results page is never reached with zero questions from a consistent state.
- An answer is not checked against the number of blanks. A longer answer whose
  first words all match raises a `TypeError`. A shorter one, including the
  empty one, is scored on its own positions only (`Game.IsCorrect`,
  `Game.PrefixScoresCorrect`).
- The error screen is shown only for a non-empty message, because `""` is
  falsy in `if (gameState.error)` (`Game.View`).

## Model

| member | source | states |
|---|---|---|
| `Text.LowerChar` | src/App.tsx:81-82 | lower-casing one character: the result is never an upper-case ASCII letter; other characters are unchanged; A-Z map to a-z |
| `Text.Lower` | src/App.tsx:81-82 | `toLowerCase` on ASCII: same length, no upper-case letter left, lower-cased position by position |
| `Text.LowerIdempotent` | src/App.tsx:81-82 | lower-casing twice equals lower-casing once |
| `Text.CaseVariantSameLower` | src/App.tsx:79-83 | two spellings of a word that differ only in letter case lower-case to the same string |
| `Text.Join` | src/components/GameComplete.tsx:77 | `join(sep)`: a one-element list joins to its element; a non-empty list has the total length of its elements plus one separator between each neighbouring pair |
| `Text.JoinSnoc` | src/components/GameComplete.tsx:77 | joining is left-to-right accumulation: `join(xs + [x]) == join(xs) + sep + x` for non-empty `xs`, so the text is the elements in order with the separator between neighbours |
| `Text.JoinEmpty` | src/components/GameComplete.tsx:83 | with a non-empty separator, the join is empty exactly for `[]` and `[""]` |
| `Results.CorrectResponses` | src/components/GameComplete.tsx:18 | `filter(a => a.isCorrect)`: every kept response is correct and comes from the input, every correct response is kept, the result is a sub-multiset of the input; nothing dropped iff all are correct; empty iff none is |
| `Results.CorrectResponsesAppend` | src/components/GameComplete.tsx:18 | the filter keeps order: filtering `answers + [x]` gives the filtered `answers` followed by `x` exactly when `x` is correct |
| `Results.Score` | src/components/GameComplete.tsx:18 | `0 <= score <= |answers|`; full iff every response is correct; zero iff none is |
| `Results.ScoreAppend` | src/components/GameComplete.tsx:18 | appending a response raises the score by one exactly when that response is correct |
| `Results.Total` | src/components/GameComplete.tsx:19 | the total depends on the question list only and is zero only for an empty list |
| `Results.Accuracy` | src/components/GameComplete.tsx:20 | `score / total * 100` kept exact: for `total > 0` the ratio `score*100/total` lies in [0, 100] when `score <= total`, is 100 iff `score == total` and 0 iff `score == 0`; `total == 0` gives NaN (score 0) or Infinity |
| `Results.Summarize` | src/components/GameComplete.tsx:18-20 | the score is `Score(answers)` (the number of correct responses) and the accuracy is `Accuracy(score, total)`; score at most the number of responses, and full iff all are correct; total is the question count; accuracy is a ratio in [0, 100] when `0 < total` and `score <= total`, and is not a number when `total == 0` |
| `Results.CorrectAnswerText` | src/components/GameComplete.tsx:77 | the text is the correct words joined with ", " (`Join`, whose content is fixed by `JoinSnoc`); one word shows as itself; its length is the total word length plus 2 per separator |
| `Results.TwoWordCorrectAnswerText` | src/components/GameComplete.tsx:77 | the correct answer `["is", "on"]` is shown as "is, on" |
| `Results.UserAnswerText` | src/components/GameComplete.tsx:83 | `"No answer"` exactly for `[]` and `[""]`; otherwise the non-empty ", "-join of the words |
| `Results.NoAnswerExamples` | src/components/GameComplete.tsx:83 | `[]` and `[""]` show "No answer"; `["",""]` shows ", "; `["sat"]` shows "sat" |
| `Results.Row` | src/components/GameComplete.tsx:42-87 | row `index` is numbered `index + 1`; it carries the response's correctness and time; details are present exactly when the response is incorrect, and they hold the two texts above |
| `Results.Rows` | src/components/GameComplete.tsx:42-43 | building the rows fails with TypeError exactly when there are fewer responses than questions; otherwise there is one row per question, and row `i` is `Row(questions[i], answers[i], i)`: it pairs `questions[i]` with `answers[i]` and carries its number, correctness, time and detail texts |
| `Game.Initial` | src/App.tsx:14-22 | the initial state is consistent, loading, and renders the loading screen |
| `Game.IsCorrect` | src/App.tsx:79-83 | `answer.every(...)`: correct iff the answer is no longer than the correct words and matches them lower-cased at every submitted position; incorrect iff some compared position differs; TypeError iff the answer is longer and all of the correct words matched |
| `Game.CaseInsensitiveScoring` | src/App.tsx:79-83 | the correct words typed in any mix of letter case score correct |
| `Game.OneWrongWordScoresIncorrect` | src/App.tsx:79-83 | replacing one correct word by a word that lower-cases differently scores incorrect |
| `Game.PrefixScoresCorrect` | src/App.tsx:79-83 | positions past the submitted list are not compared: any prefix of the correct words, the empty one included, scores correct |
| `Game.Tick` | src/App.tsx:35-45 | a tick changes only the countdown: down by exactly one while positive, nothing at all at zero or below; it preserves the invariant |
| `Game.TicksCountDown` | src/App.tsx:34-46 | `n` ticks change only the countdown: it drops by `n` and stops at 0, a non-positive countdown stays put, and the invariant (so 0..30) holds throughout |
| `Game.EmptyWords` | src/App.tsx:103 | `Array(n).fill("")`: `n` empty strings |
| `Game.Answer` | src/App.tsx:77-99 | with no current question, a TypeError; otherwise it fails exactly when scoring fails, and on success it appends one response (current question's id, the submitted words, the score, `30 - timeRemaining`), advances the index by one, resets the countdown to 30, sets completion iff the new index reaches the list's length, and changes nothing else (questions, loading, error); it preserves the invariant |
| `Game.TimeUp` | src/App.tsx:101-104 | the time-up is exactly an answer of `blanks` empty strings; TypeError with no current question, RangeError for a length `Array` rejects; it preserves the invariant |
| `Game.OnTimer` | src/App.tsx:34-46 | a timer event is a tick while time is left; once time has run out it leaves the state as it is and performs the time-up on it; it preserves the invariant |
| `Game.Restart` | src/App.tsx:106-116 | restart keeps the question list and resets everything else: index 0, no answers, 30 seconds, not complete, not loading, no error; the result is consistent |
| `Game.ErrorMessage` | src/App.tsx:71 | an `Error`'s own message, otherwise "An error occurred" |
| `Game.FetchDone` | src/App.tsx:57-74 | success stores the list, stops loading and resets the countdown; failure stores the message ("Failed to fetch questions" for a non-ok response) and stops loading; neither touches completion, index or answers; from the loading state the invariant holds afterwards |
| `Game.View` | src/App.tsx:118-164 | the screen is chosen in fixed order: loading wins; then a non-empty error; then the results page; then the current question with its countdown |
| `App.Controller.constructor` | src/App.tsx:14-22 | the controller starts in the initial state, which satisfies the invariant |
| `App.Controller.FetchDone` | src/App.tsx:57-75 | the one fetch replaces the state by `Game.FetchDone` and keeps the invariant |
| `App.Controller.Tick` | src/App.tsx:28-55 | each firing of the running interval replaces the state by `Game.OnTimer`, keeps the old state if that raises, reports the fault, and keeps the invariant |
| `App.Controller.Answer` | src/App.tsx:77-99 | replaces the state by `Game.Answer`, keeps the old state if that raises, reports the fault, and keeps the invariant |
| `App.Controller.TimeUp` | src/App.tsx:101-104 | replaces the state by `Game.TimeUp` under the same rules |
| `App.Controller.Restart` | src/App.tsx:106-116 | replaces the state by `Game.Restart`; the question list is unchanged |
| `App.CompleteExactlyWhenAllAnswered` | src/App.tsx:92-98 | in every consistent state `|answers| == currentQuestionIndex`, and the game is complete iff a non-empty list has been fully answered |
| `App.TimerRunningHasQuestion` | src/App.tsx:29-33 | while the interval runs there is a current question |
| `App.CorrectAnswerRaisesScore` | src/App.tsx:79-98 | answering with the correct words in any case records a correct response and raises the final score by one |
| `App.TimeUpScoresIncorrect` | src/App.tsx:101-104 | a time-up where `blanks >= 1` and the first correct word is non-empty records one incorrect response of empty strings, with `30 - timeRemaining` seconds spent, and leaves the score unchanged |
| `App.FullCountdownRecordsDuration` | src/App.tsx:34-45 | from a fresh question, 30 ticks bring the time to 0 and change nothing else; the next timer event records the time-up with 30 seconds spent |
| `App.CompleteViewIsWellDefined` | src/App.tsx:134-141 | when the results page is shown, every review row exists and pairs each question with its own response; accuracy is a ratio in [0, 100] |
| `App.EmptyListIsNotComplete` | src/App.tsx:62-67 | fetching an empty list leaves the game consistent and not complete, and shows the question screen at index 0 |
| `App.CatSatExample` | src/App.tsx:77-104 | for "The cat ___ on the mat." with answer `["sat"]`, the answer "Sat" is recorded as correct and completes the game, and the time-up records `[""]` as incorrect |

## Left out

- `server.js`: the HTTP endpoint, CORS, and reading and parsing the JSON file. It is I/O over libraries that are not part of this model.
- The network `fetch` and `response.json()` (src/App.tsx:57-61). They appear only through their outcome: `Game.FetchOutcome` is the parsed list, a non-ok response, or a thrown value. The parsed data is assumed to be well-formed questions.
- React's `useState`/`useEffect` machinery and the `setInterval`/`clearInterval` lifecycle. Each timer firing is one atomic call of `Controller.Tick`, allowed only while the interval would exist (`Game.TimerRunning`). The fetch runs once, while loading.
- App.Controller.Tick: the interval's callback calls `handleTimeUp` through a closure. That closure sees the state of the render that created the interval, where the countdown was still 30, so the code as written records a time spent of 0 on a time-up fired by the interval. The model reads the current state and records `30 - timeRemaining`.
- App.Controller.TimeUp: `handleTimeUp` and `handleAnswer` read `gameState` from the render that created them. The model does not capture this; it reads the controller's current state.
- A `TypeError` thrown inside a state updater, such as a time-up raised from the interval, would make React fail the render. The model keeps the old state and reports the fault instead.
- The floating-point `percentage` and its `toFixed(1)` text (src/components/GameComplete.tsx:20, 34). Accuracy is kept as an exact ratio.
- Full Unicode `toLowerCase`. Only ASCII letters are lower-cased.
- The JSX markup, styling and icons. `src/components/Question.tsx` is not part of this model, nor is its own countdown display.
