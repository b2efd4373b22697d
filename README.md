# Trivia-Game: a verified model of the quiz, the setup screen, the shuffle and the backend handlers

This project models the parts of the Trivia-Game web application that follow
precise rules:

- **The quiz round** (`Frontend/trivia-next/app/quiz/QuestionScreen.tsx`). The
  screen's state cells are the question index, the selected answer, the
  result flag, the score, the clock, the game-over flag and the answer tiles.
  Five events advance them: the questions arriving, selecting an answer,
  checking it, moving on, and the one-second timer. "Play again" resets
  them, and the game-over card shows a verdict.
  - `Quiz` holds these transitions as pure functions on a `Round` value.
  - `ValidRound` is the invariant each transition keeps, provided the
    screen delivers the event (`Enabled`) and "Play Again" is corrected.
    For "Play Again" as written, the weaker `BoundedRound` (without the
    tiles clause) is proved for every reachable state.
  - The class `Quiz.QuestionScreen` has the source's state cells as fields.
    Each handler method is proved to perform its transition.
- **The Fisher–Yates shuffle** (`Frontend/trivia-next/lib/shuffle.tsx`). It is
  an in-place method on an `array`; the random partner index of each step is
  an oracle argument. The method is proved equal to the specification
  function `Shuffled`, and the lemmas prove that function a permutation.
- **The game-setup screen** (`Frontend/trivia-next/app/select/page.tsx`). It
  has the question-count stepper clamped to [5, 50], the slider, the category
  and difficulty cards, the dropdown toggle, and the start guard that builds
  the options record. The pure parts live in `Selection`; the screen's cells
  are the class `Selection.SelectionScreen`.
- **The backend handlers** (`friends.controller.js`, `game.controller.js`,
  `question.controller.js`). The database tables become one in-memory store,
  the class `Backend.Store`:
  - a user table `id -> (points, matches)`;
  - a sequence of friend requests;
  - a sequence of saved questions.

  Each handler's decision is a pure function in `Friends`, `Game` or
  `Questions`. The handler itself is a `Backend.Store` method that returns
  the HTTP status and reply and updates the tables.

Modelling choices:

- A request-body field is `Option<string>`. The handlers' `!field` tests are
  JavaScript truthiness, so a field counts as missing when it is absent or
  is the empty string (`Wrappers.Truthy`).
- The verdict's `score >= questions.length / 2` is a floating-point
  comparison. It is modelled as `2 * score >= count`, and `VerdictFor`'s
  contract proves that equal to the real division.
- The timer effect does not test whether the questions have arrived. Ticks
  are therefore enabled in the loading state too, and the invariant allows
  for it.
- `getFriendRequests` has a 404 branch for `!response`. That branch never
  fires, because a list is always truthy, so the model's reply is always
  200.
- Time, randomness, the network and the router are parameters or plain
  fields:
  - `TimerTick` stands for one interval firing;
  - `picks` takes the place of `Math.random` in the shuffle;
  - the constructor argument `randomId` takes its place in the setup
    screen's initial category id;
  - `contextOptions`, `storedOptions` and `toQuiz` stand for the game
    context, the "Quiz-Options" local-storage entry and the navigation to
    the quiz.

## Model

| member | source | states |
|---|---|---|
| `Quiz.Initial` | Frontend/trivia-next/app/quiz/QuestionScreen.tsx:39-46 | the cells as the screen mounts: no questions, so not yet playing, and the invariant already holds |
| `Quiz.Enabled` | Frontend/trivia-next/app/quiz/QuestionScreen.tsx:48-268 | when the screen offers each event (the fetch effect at 48-67, the timer guard at 82, the loading and game-over cards at 136-184, the tiles and buttons at 226-268): the fetch once while loading; tiles, Check and Next only on the question screen; Check only with the result hidden and a truthy selection; Next only with the result shown; the timer only while neither the result nor the game-over card shows; "Play Again" only on the game-over card |
| `Quiz.Load` | Frontend/trivia-next/app/quiz/QuestionScreen.tsx:48-78 | the fetched questions are stored; when there is at least one, the tiles become question 0's; no other cell changes |
| `Quiz.SelectAnswer` | Frontend/trivia-next/app/quiz/QuestionScreen.tsx:96-99 | ignored while the result shows; otherwise the selection becomes the clicked answer and nothing else changes |
| `Quiz.CheckAnswer` | Frontend/trivia-next/app/quiz/QuestionScreen.tsx:100-105 | the result shows, and the score rises by exactly one iff the selection is the current question's correct answer; nothing else changes |
| `Quiz.NextQuestion` | Frontend/trivia-next/app/quiz/QuestionScreen.tsx:106-116 | the questions and the score are kept, an in-range index stays in range, the index rises by at most one, and the game is over iff it was or this was the last question |
| `Quiz.Tick` | Frontend/trivia-next/app/quiz/QuestionScreen.tsx:84-91 | the clock reaches 0 iff it was at most 1, never goes negative or up, and the result shows iff it did or the time ran out; nothing else changes |
| `Quiz.PlayAgainAsWritten` | Frontend/trivia-next/app/quiz/QuestionScreen.tsx:174-181 | as written: index 0, no selection, result hidden, clock 30, score 0, not over, and the questions and the tiles both kept |
| `Quiz.PlayAgain` | Frontend/trivia-next/app/quiz/QuestionScreen.tsx:174-181 | corrected: the same six resets, with the tiles of question 0 laid out again |
| `Quiz.Tiles` | Frontend/trivia-next/app/quiz/QuestionScreen.tsx:73-76 | the tiles are the incorrect answers, in order, followed by the correct answer as the last tile |
| `Quiz.LoadLaysOutFirstTiles` | Frontend/trivia-next/app/quiz/QuestionScreen.tsx:70-77 | once questions arrive, the tiles are question 0's incorrect answers followed by its correct answer, which is last |
| `Quiz.StepPreservesValid` | Frontend/trivia-next/app/quiz/QuestionScreen.tsx:81-116 | with the corrected "Play Again", every event the screen can deliver keeps the invariant: index in bounds, clock in [0, 30], tiles matching the current question, selection among the tiles, score at most the questions reached, game over only on the last question with the result shown |
| `Quiz.RunPreservesValid` | Frontend/trivia-next/app/quiz/QuestionScreen.tsx:226-268 | with the corrected "Play Again", any sequence of events offered by the tiles, the check/next buttons, the timer and "Play Again" keeps the invariant |
| `Quiz.ReachableIsValid` | Frontend/trivia-next/app/quiz/QuestionScreen.tsx:39-46 | with the corrected "Play Again", every state reachable from the initial cells satisfies the invariant |
| `Quiz.StepAsWrittenKeepsBounds` | Frontend/trivia-next/app/quiz/QuestionScreen.tsx:81-116 | with "Play Again" as written (174-181), every event the screen can deliver keeps the bounds: clock in [0, 30], selection among the tiles, index in range, score at most the questions answered, game over only on the last question; only the tiles clause is lost |
| `Quiz.RunAsWrittenKeepsBounds` | Frontend/trivia-next/app/quiz/QuestionScreen.tsx:174-181 | any sequence of events of the program as written, "Play Again" included, keeps those bounds |
| `Quiz.ReachableAsWrittenIsBounded` | Frontend/trivia-next/app/quiz/QuestionScreen.tsx:39-46 | every state the program as written reaches from the initial cells keeps the bounds, so score <= index + 1 <= number of questions |
| `Quiz.SelectAnswerOnlySelects` | Frontend/trivia-next/app/quiz/QuestionScreen.tsx:96-99 | selecting while the result shows changes nothing; otherwise only the selection changes |
| `Quiz.CheckAnswerScoresIffCorrect` | Frontend/trivia-next/app/quiz/QuestionScreen.tsx:100-105 | checking shows the result and adds exactly one point iff the selection equals the current question's correct answer, else leaves the score; nothing else changes |
| `Quiz.NextQuestionAdvances` | Frontend/trivia-next/app/quiz/QuestionScreen.tsx:106-112 | before the last question: index + 1, selection cleared, result hidden, clock back to 30, tiles of the next question, score and questions unchanged |
| `Quiz.NextQuestionOnLastEndsGame` | Frontend/trivia-next/app/quiz/QuestionScreen.tsx:113-115 | on the last question only the game-over flag is set, so the index stays in bounds |
| `Quiz.TickCountsDown` | Frontend/trivia-next/app/quiz/QuestionScreen.tsx:84-91 | at one second or less the clock becomes 0 and the result shows; otherwise it loses one second; it never goes negative |
| `Quiz.ScoreBound` | Frontend/trivia-next/app/quiz/QuestionScreen.tsx:254-268 | in a valid round, score <= index + 1 <= number of questions |
| `Quiz.PlayAgainResets` | Frontend/trivia-next/app/quiz/QuestionScreen.tsx:174-181 | corrected "Play Again": index 0, no selection, result hidden, clock 30, score 0, not over, questions untouched, tiles of question 0, valid round |
| `Quiz.PlayAgainAsWrittenKeepsStaleTiles` | Frontend/trivia-next/app/quiz/QuestionScreen.tsx:174-181 | as written, "Play Again" keeps the last question's tiles while showing question 0, which breaks the invariant whenever those tiles differ |
| `Quiz.PlayAgainAsWrittenHidesCorrectAnswer` | Frontend/trivia-next/app/quiz/QuestionScreen.tsx:174-181 | in a concrete two-question game, after "Play Again" as written, question 0's correct answer is on no tile; the corrected reset shows it |
| `Quiz.VerdictFor` | Frontend/trivia-next/app/quiz/QuestionScreen.tsx:152-160 | "perfect" iff score equals the count; "good job" iff not perfect and score >= count / 2 in real arithmetic; "better luck" otherwise |
| `Quiz.VerdictMonotone` | Frontend/trivia-next/app/quiz/QuestionScreen.tsx:152-160 | a higher score never gets a worse message |
| `Quiz.GameOverVerdict` | Frontend/trivia-next/app/quiz/QuestionScreen.tsx:139-160 | at game over the score is at most the number of questions, and the verdict is "perfect" exactly when they are equal |
| `Quiz.QuestionScreen.constructor` | Frontend/trivia-next/app/quiz/QuestionScreen.tsx:39-46 | the cells start as index 0, no selection, result hidden, score 0, clock 30, not over, no questions, no tiles |
| `Quiz.QuestionScreen.ReceiveQuestions` | Frontend/trivia-next/app/quiz/QuestionScreen.tsx:48-78 | storing the fetched questions and laying out question 0's tiles performs `Load` and keeps the invariant |
| `Quiz.QuestionScreen.HandleAnswerSelect` | Frontend/trivia-next/app/quiz/QuestionScreen.tsx:96-99 | the handler performs `SelectAnswer` and keeps the invariant |
| `Quiz.QuestionScreen.HandleCheckAnswer` | Frontend/trivia-next/app/quiz/QuestionScreen.tsx:100-105 | the handler performs `CheckAnswer` and keeps the invariant |
| `Quiz.QuestionScreen.HandleNextQuestion` | Frontend/trivia-next/app/quiz/QuestionScreen.tsx:106-116 | the handler performs `NextQuestion` and keeps the invariant |
| `Quiz.QuestionScreen.TimerTick` | Frontend/trivia-next/app/quiz/QuestionScreen.tsx:81-94 | one interval firing, possible only while neither the result nor the game-over card shows, performs `Tick`, keeps the invariant and leaves the clock non-negative |
| `Quiz.QuestionScreen.PlayAgainClicked` | Frontend/trivia-next/app/quiz/QuestionScreen.tsx:174-181 | the corrected "Play Again" performs `PlayAgain` and keeps the invariant |
| `Quiz.QuestionScreen.Verdict` | Frontend/trivia-next/app/quiz/QuestionScreen.tsx:152-160 | the game-over message: perfect iff score = count, good job iff score < count <= 2 * score, better luck iff 2 * score < count |
| `Shuffle.Swap` | Frontend/trivia-next/lib/shuffle.tsx:7 | a swap keeps the length |
| `Shuffle.SwapExchanges` | Frontend/trivia-next/lib/shuffle.tsx:7 | a swap exchanges the two elements, leaves every other position and keeps the multiset |
| `Shuffle.ShuffleFrom` | Frontend/trivia-next/lib/shuffle.tsx:4-8 | the remaining iterations keep the length |
| `Shuffle.ShuffleFromPermutes` | Frontend/trivia-next/lib/shuffle.tsx:4-8 | the remaining iterations yield a permutation of their input |
| `Shuffle.ShuffleFromKeepsAbove` | Frontend/trivia-next/lib/shuffle.tsx:4-7 | positions above the current `i` are never written again |
| `Shuffle.Shuffled` | Frontend/trivia-next/lib/shuffle.tsx:3-8 | the loop run from the last position down to 1 keeps the length |
| `Shuffle.ShuffledPermutes` | Frontend/trivia-next/lib/shuffle.tsx:3-8 | the whole shuffle yields a permutation of the input, of the same length |
| `Shuffle.ShortIsUnchanged` | Frontend/trivia-next/lib/shuffle.tsx:4 | arrays of length 0 or 1 are left unchanged |
| `Shuffle.ShuffleArray` | Frontend/trivia-next/lib/shuffle.tsx:3-8 | with every partner `j` in [0, i], the array ends as `Shuffled` of its old contents and as a permutation of them (that positions above `i` are final once passed is its loop invariant, from `ShuffleFromKeepsAbove`) |
| `Selection.Decrease` | Frontend/trivia-next/app/select/page.tsx:163 | minus yields `max(5, count - 5)`: either count - 5 or 5, never below either, never above the count when the count is at least 5, and a valid count stays valid |
| `Selection.Increase` | Frontend/trivia-next/app/select/page.tsx:167 | plus yields `min(50, count + 5)`: either count + 5 or 50, never above either, never below the count when the count is at most 50, and a valid count stays valid |
| `Selection.OnSliderScale` | Frontend/trivia-next/app/select/page.tsx:171 | a slider value on the range input's scale (min 5, max 50, step 5) is a multiple of 5 in [5, 50]; minus and plus are always allowed |
| `Selection.RunCountKeepsValid` | Frontend/trivia-next/app/select/page.tsx:163-171 | any use of minus, plus and the slider (min 5, max 50, step 5) keeps a multiple of 5 in [5, 50] |
| `Selection.CountAlwaysValid` | Frontend/trivia-next/app/select/page.tsx:39 | starting from 10, the count is always a multiple of 5 in [5, 50] |
| `Selection.StartOptions` | Frontend/trivia-next/app/select/page.tsx:65-73 | a record exists iff both category and difficulty are chosen (truthy); it has questionCount = amount = count and id = selected category id |
| `Selection.SelectionScreen.constructor` | Frontend/trivia-next/app/select/page.tsx:36-43 | nothing selected, count 10, dropdown closed, initial category id the random draw in [0, 25) |
| `Selection.SelectionScreen.MinusClicked` | Frontend/trivia-next/app/select/page.tsx:163 | the count becomes `Decrease` of the old count, still valid |
| `Selection.SelectionScreen.PlusClicked` | Frontend/trivia-next/app/select/page.tsx:167 | the count becomes `Increase` of the old count, still valid |
| `Selection.SelectionScreen.SliderChanged` | Frontend/trivia-next/app/select/page.tsx:171 | the count becomes the slider's value |
| `Selection.SelectionScreen.CategoryClicked` | Frontend/trivia-next/app/select/page.tsx:128 | a category card sets both the category name and its numeric id |
| `Selection.SelectionScreen.DifficultyClicked` | Frontend/trivia-next/app/select/page.tsx:149 | a difficulty card sets the difficulty id |
| `Selection.SelectionScreen.DropdownToggled` | Frontend/trivia-next/app/select/page.tsx:101-104 | the dropdown flag is negated |
| `Selection.SelectionScreen.DropdownClosed` | Frontend/trivia-next/app/select/page.tsx:105-107 | closing always yields false |
| `Selection.SelectionScreen.ToggleTwice` | Frontend/trivia-next/app/select/page.tsx:101-104 | toggling twice restores the dropdown flag |
| `Selection.SelectionScreen.StartGame` | Frontend/trivia-next/app/select/page.tsx:65-86 | starts iff category and difficulty are chosen; then the identical `StartOptions` record goes to the game context and to storage and the router goes to the quiz; otherwise nothing changes |
| `Friends.FindBetween` | Backend/src/controller/friends.controller.js:34-41 | finds the first request joining the two ids in either direction, or reports that there is none |
| `Friends.SendRequestOutcome` | Backend/src/controller/friends.controller.js:6-74 | checks in order 400 (missing id, with per-field flags), 404 (unknown user, with per-field flags), 409 (a request either way, with its status), else 201 with the pending sender→receiver request |
| `Friends.AfterSend` | Backend/src/controller/friends.controller.js:50-57 | the old table is a prefix of the new one; exactly one request, the created one, is appended iff the reply is 201; otherwise the table is unchanged |
| `Friends.SendKeepsPairUnique` | Backend/src/controller/friends.controller.js:34-74 | the handler keeps at most one request per unordered pair |
| `Friends.SecondRequestConflicts` | Backend/src/controller/friends.controller.js:34-48 | after a successful A→B, both A→B and B→A yield 409 with status PENDING |
| `Friends.SentBy` | Backend/src/controller/friends.controller.js:87-90 | exactly the requests whose sender is the id, none listed more often than it is stored |
| `Backend.Store.constructor` | Backend/src/prismaClient.js:11-29 | the store opens over the database's current users, friend requests and questions, which must already be unique per pair and per text, and satisfies the uniqueness invariant |
| `Backend.Store.SendRequest` | Backend/src/controller/friends.controller.js:1-82 | returns the status and reply of `SendRequestOutcome`; on 201 exactly that one request is appended, on every error path the tables are unchanged; pair uniqueness is kept |
| `Backend.Store.GetFriendRequests` | Backend/src/controller/friends.controller.js:83-111 | 200 with exactly the requests sent by the id; nothing changes |
| `Game.Bump` | Backend/src/controller/game.controller.js:12-17 | the increment changes one user's counters by the given amounts and no other user |
| `Game.AddPoint` | Backend/src/controller/game.controller.js:3-34 | missing userId: 400, table unchanged; unknown user: 404, table unchanged; else the user's points rise by `points` and the updated user is returned |
| `Game.AddPointAsWritten` | Backend/src/controller/game.controller.js:25-31 | as written, an unknown user makes the handler throw before any reply |
| `Game.AddPointUnknownUser` | Backend/src/controller/game.controller.js:27-31 | for an unknown user the handler as written never replies, while the corrected one answers 404 and leaves the table alone |
| `Game.AddMatch` | Backend/src/controller/game.controller.js:37-65 | missing userId: 400; unknown user: 500 (no record-not-found branch); tables unchanged on both; else matches + 1 |
| `Game.StatsOf` | Backend/src/controller/game.controller.js:68-82 | only the user's points and matches, or not-found when absent |
| `Game.AddPointOnlyAddsPoints` | Backend/src/controller/game.controller.js:12-17 | a successful `addPoint` adds exactly `points` to that user's points; matches and all other users are unchanged |
| `Game.AddMatchOnlyCountsMatch` | Backend/src/controller/game.controller.js:46-51 | a successful `addMatch` adds exactly 1 to that user's matches; points and all other users are unchanged |
| `Game.TwoPointsReadBack` | Backend/src/controller/game.controller.js:12-17 | two successive `addPoint(u, 1)` read back as +2 points with matches unchanged |
| `Backend.Store.AddPoint` | Backend/src/controller/game.controller.js:3-34 | status, reply and new user table are those of the corrected `Game.AddPoint`; the other tables are unchanged |
| `Backend.Store.AddMatch` | Backend/src/controller/game.controller.js:37-65 | status, reply and new user table are those of `Game.AddMatch`; the other tables are unchanged |
| `Backend.Store.GetUserPointsAndMatch` | Backend/src/controller/game.controller.js:68-88 | 200 with the user's two counters iff the user exists, else 404; nothing changes |
| `Questions.SaveOutcome` | Backend/src/controller/question.controller.js:18-41 | 409 iff a stored question has the same text; otherwise the mapped row is created |
| `Questions.ToStored` | Backend/src/controller/question.controller.js:30-39 | the row's `correctAnswer` and `incorrectAnswers` are the posted `correct_answer` and `incorrect_answers`; category, text, difficulty and type are copied |
| `Questions.AfterSave` | Backend/src/controller/question.controller.js:30-39 | the old table is a prefix of the new one; exactly the created row is appended iff the reply is 201; otherwise the table is unchanged |
| `Questions.SavedRowMapsFields` | Backend/src/controller/question.controller.js:30-39 | a created row has `correctAnswer` from `correct_answer` and `incorrectAnswers` from `incorrect_answers`, the other four fields copied, and exactly one row is added |
| `Questions.SaveKeepsUniqueTexts` | Backend/src/controller/question.controller.js:18-41 | saving keeps at most one stored question per text |
| `Questions.SaveTwice` | Backend/src/controller/question.controller.js:18-41 | saving the same text twice yields 201 and then 409 with the table unchanged |
| `Backend.Store.SaveExternalQuestion` | Backend/src/controller/question.controller.js:4-46 | status and reply of `SaveOutcome`; on 201 exactly one row is appended, on 409 nothing changes; text uniqueness is kept |
| `Backend.Store.GetAllQuestions` | Backend/src/controller/question.controller.js:48-51 | 200 with the whole question table, unchanged |

## Left out

- `decodeEntities` (QuestionScreen.tsx:117-135) is left out. It relies on the browser's DOM (`innerHTML`/`textContent`) and regular expressions.
- The question fetch, the category fetch, the network errors and JSON decoding are left out. The fetched data is a parameter.
- The timing and lifetime of React effects (`setInterval`, `clearInterval`, re-renders) are left out. One interval firing is the method `TimerTick`, which can run only while the effect would keep an interval alive.
- `Math.random` is not modelled. Its draws are parameters: the shuffle's `picks` and the setup screen's `randomId`.
- `router.push` and `JSON.stringify` are not modelled. Navigation is a boolean field, and the stored options are the record itself, not its JSON text.
- `Number(category.id)` (select/page.tsx:128) is not modelled. Category ids are already numbers in the model.
- The database is left out: Prisma queries, connection handling, and every error code except record-not-found. Database failures lead to the generic 500 replies in each `catch`, and those are not modelled. An unknown user in `addMatch` is the exception: it is modelled as 500.
- The user table holds only points and matches. Name, email and password hash are left out, and so is the `include` of sender and receiver profiles in friend-request replies.
- `Game.AddPoint`: a missing `points` field is not modelled. Prisma's handling of `increment: undefined` is not visible here, so `points` is always an integer argument.
- `Questions.SaveOutcome`: a body without a `question` text is not modelled. Prisma would treat the `undefined` filter as matching any row. The model always has a text.
- Handlers named in the routes whose code is not shown are not part of this model: `acceptRequest`, `getAllFriends`, `getSendedFriendRequests`, `getReceivedFriendRequests`, `likeQuestion`, `getUserLikedQuestions`, `deleteQuestion` and `updateQuestion`.
- The route that maps deny-request to `sendRequest` (friends.routes.js:9) is not modelled apart from this note.
- `friends.controller.js` uses a global `prisma`. `prismaClient.js` creates it only outside production. The model assumes it exists.
- `Backend.Store.Valid`, `Friends.SendKeepsPairUnique`, `Questions.SaveKeepsUniqueTexts`: each handler is modelled as one atomic step, so requests are served one at a time. In the source, `sendRequest` awaits its `findFirst` (friends.controller.js:34) before its `create` (:50), and `saveExternalQuestion` does the same (question.controller.js:18 and :30). Two overlapping requests A→B and B→A, or two saves of one text, can both find nothing and both insert. The pair and text uniqueness proved here hold only when requests do not interleave. The database schema is not part of this model, so whether a unique constraint would reject the second insert is not visible.
- The `if (!updatedUser)` 404 branches of `addPoint` and `addMatch` (game.controller.js:21-23, 55-57) are not modelled: `update` throws record-not-found (P2025) instead of returning nothing, so these branches never run and the unknown-user cases go to the `catch` blocks.
- The save button of the question screen (QuestionScreen.tsx:250, select/save.tsx:18) posts a one-element array rather than a question object. Such a body has no `question` text, which is the `Questions.SaveOutcome` case left out above.
- Authentication, cookies and sessions are left out, as are the UI components, the progress bar's floating-point percentage and all styling.

## Findings

| source | as written | input that shows it | evidently intended | confidence | as-written member | corrected member |
|---|---|---|---|---|---|---|
| Frontend/trivia-next/app/quiz/QuestionScreen.tsx:174-181 | "Play Again" resets six cells but not `answers` | a two-question game played to the end, then "Play Again": question 0 is shown with question 1's tiles, so its correct answer "Mars" is on no tile | also lay out `questions[0]`'s tiles | high; not executed | `Quiz.PlayAgainAsWrittenHidesCorrectAnswer` | `Quiz.PlayAgainResets` |
| Backend/src/controller/game.controller.js:27-29 | the record-not-found branch logs `userId`, which is declared with `const` inside the `try` block and so is out of scope in `catch` | `addPoint` with a userId that has no user: the update fails with P2025, then the `catch` block throws a ReferenceError | answer 404 "User not found" | high that it throws, the client-visible effect depends on the framework's handling of a rejected handler; not executed | `Game.AddPointUnknownUser` | `Game.AddPoint` |
