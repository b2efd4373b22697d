/** The quiz round of the question screen: a handful of state cells advanced by
    answer selection, answer checking, moving on, the one-second timer and
    "play again".  The transitions are pure functions on `Round`; the class
    `QuestionScreen` holds the same cells as fields and each of its handlers
    is proved to perform the corresponding transition. */
module Quiz {
  import opened Wrappers

  /** One fetched trivia question. */
  datatype Question = Question(id: int, text: string, correctAnswer: string, incorrectAnswers: seq<string>)

  /** Seconds on the clock at the start of every question. */
  const RoundSeconds: int := 30

  /** The answer tiles shown for a question: its incorrect answers followed by
      its correct answer. */
  function Tiles(q: Question): (t: seq<string>)
    ensures |t| == |q.incorrectAnswers| + 1
    ensures t[|t| - 1] == q.correctAnswer
    ensures forall k :: 0 <= k < |q.incorrectAnswers| ==> t[k] == q.incorrectAnswers[k]
  {
    q.incorrectAnswers + [q.correctAnswer]
  }

  /** The state cells of the screen. */
  datatype Round = Round(
    questions: seq<Question>,
    index: nat,
    selected: Option<string>,
    showResult: bool,
    score: nat,
    timeLeft: int,
    gameOver: bool,
    answers: seq<string>)

  /** The cells as the screen mounts, before the questions arrive. */
  function Initial(): (r: Round)
    ensures ValidRound(r) && r.questions == [] && !Playing(r)
  {
    Round([], 0, None, false, 0, RoundSeconds, false, [])
  }

  /** The question screen proper is rendered (not "Loading...", not the
      game-over card): this is when tiles and buttons can be clicked. */
  predicate Playing(r: Round) {
    r.index < |r.questions| && !r.gameOver
  }

  // ---------------------------------------------------------------------
  // Transitions

  /** The fetch resolves: the questions are stored and, when there is at least
      one, the answers effect lays out the tiles of question 0. */
  function Load(r: Round, qs: seq<Question>): (r': Round)
    ensures r'.questions == qs
    ensures qs != [] ==> r'.answers == Tiles(qs[0])
    ensures qs == [] ==> r'.answers == r.answers
    ensures r'.(questions := r.questions, answers := r.answers) == r
  {
    r.(questions := qs, answers := if |qs| > 0 then Tiles(qs[0]) else r.answers)
  }

  /** `handleAnswerSelect`: ignored once the result is shown. */
  function SelectAnswer(r: Round, a: string): (r': Round)
    ensures r.showResult ==> r' == r
    ensures !r.showResult ==> r'.selected == Some(a) && r'.(selected := r.selected) == r
  {
    if r.showResult then r else r.(selected := Some(a))
  }

  /** `handleCheckAnswer`: reveal the result, and score when the selection is
      the current question's correct answer. */
  function CheckAnswer(r: Round): (r': Round)
    requires r.index < |r.questions|
    ensures r'.showResult
    ensures r'.score == r.score + 1 <==> r.selected == Some(r.questions[r.index].correctAnswer)
    ensures r'.score == r.score || r'.score == r.score + 1
    ensures r'.(showResult := r.showResult, score := r.score) == r
  {
    var hit := r.selected == Some(r.questions[r.index].correctAnswer);
    r.(showResult := true, score := if hit then r.score + 1 else r.score)
  }

  /** `handleNextQuestion`: move on, or end the game on the last question. */
  function NextQuestion(r: Round): (r': Round)
    ensures r'.questions == r.questions && r'.score == r.score
    ensures r.index < |r.questions| ==> r'.index < |r'.questions|
    ensures r'.gameOver <==> r.gameOver || r.index >= |r.questions| - 1
    ensures r'.index == r.index || r'.index == r.index + 1
  {
    if r.index < |r.questions| - 1 then
      r.(index := r.index + 1, selected := None, showResult := false,
         timeLeft := RoundSeconds, answers := Tiles(r.questions[r.index + 1]))
    else
      r.(gameOver := true)
  }

  /** The interval callback's state updater. */
  function Tick(r: Round): (r': Round)
    ensures r'.timeLeft == 0 <==> r.timeLeft <= 1
    ensures r.timeLeft >= 0 ==> 0 <= r'.timeLeft <= r.timeLeft
    ensures r'.showResult <==> r.showResult || r.timeLeft <= 1
    ensures r'.(timeLeft := r.timeLeft, showResult := r.showResult) == r
  {
    if r.timeLeft <= 1 then r.(timeLeft := 0, showResult := true)
    else r.(timeLeft := r.timeLeft - 1)
  }

  /** The "Play Again" button exactly as written: six cells are reset and the
      answer tiles are left as they were. */
  function PlayAgainAsWritten(r: Round): (r': Round)
    ensures r'.index == 0 && r'.selected == None && !r'.showResult
    ensures r'.timeLeft == RoundSeconds && r'.score == 0 && !r'.gameOver
    ensures r'.questions == r.questions && r'.answers == r.answers
  {
    r.(index := 0, selected := None, showResult := false, timeLeft := RoundSeconds,
       score := 0, gameOver := false)
  }

  /** "Play Again" as evidently intended: the six resets, and the tiles of
      question 0 laid out again. */
  function PlayAgain(r: Round): (r': Round)
    ensures r.questions != [] ==> r'.answers == Tiles(r.questions[0])
    ensures r'.(answers := r.answers) == PlayAgainAsWritten(r)
  {
    PlayAgainAsWritten(r).(answers := if |r.questions| > 0 then Tiles(r.questions[0]) else r.answers)
  }

  // ---------------------------------------------------------------------
  // The invariant kept by every event the screen can deliver

  /** The bounds: clock in [0, 30], the selection among the tiles, the index
      in range, the score at most the questions answered, and game over only
      on the last question with its result shown. */
  predicate BoundedRound(r: Round) {
    && 0 <= r.timeLeft <= RoundSeconds
    && (r.selected.Some? ==> r.selected.value in r.answers)
    && if r.questions == [] then
         r.index == 0 && r.score == 0 && r.selected == None && !r.gameOver && r.answers == []
       else
         && r.index < |r.questions|
         && r.score <= r.index + (if r.showResult then 1 else 0)
         && (r.gameOver ==> r.showResult && r.index == |r.questions| - 1)
  }

  /** The bounds, and the tiles are those of the question shown. */
  predicate ValidRound(r: Round) {
    BoundedRound(r) && (r.questions != [] ==> r.answers == Tiles(r.questions[r.index]))
  }

  /** What the user or the runtime can do to the screen. */
  datatype Event =
    | FetchDone(qs: seq<Question>)
    | ClickTile(answer: string)
    | ClickCheck
    | ClickNext
    | TimerFired
    | ClickPlayAgain

  /** When each event can happen: the fetch resolves into the loading state;
      tiles and the check/next buttons exist only on the question screen (the
      check button is disabled without a truthy selection and replaced by the
      next button once the result shows); the timer runs unless the result or
      the game-over card shows; "Play Again" is on the game-over card. */
  function Enabled(r: Round, e: Event): (b: bool)
    ensures b && (e.ClickTile? || e.ClickCheck? || e.ClickNext?) ==> Playing(r)
    ensures b && e.ClickCheck? ==> !r.showResult && Truthy(r.selected)
    ensures b && (e.TimerFired? || e.ClickCheck?) ==> !r.gameOver && !r.showResult
    ensures b && e.ClickPlayAgain? ==> r.questions != [] && r.gameOver
  {
    match e
    case FetchDone(_) => r.questions == []
    case ClickTile(a) => Playing(r) && a in r.answers
    case ClickCheck => Playing(r) && !r.showResult && Truthy(r.selected)
    case ClickNext => Playing(r) && r.showResult
    case TimerFired => !r.showResult && !r.gameOver
    case ClickPlayAgain => r.questions != [] && r.gameOver
  }

  function Step(r: Round, e: Event): Round
    requires Enabled(r, e)
  {
    match e
    case FetchDone(qs) => Load(r, qs)
    case ClickTile(a) => SelectAnswer(r, a)
    case ClickCheck => CheckAnswer(r)
    case ClickNext => NextQuestion(r)
    case TimerFired => Tick(r)
    case ClickPlayAgain => PlayAgain(r)
  }

  /** A sequence of events; an event the screen does not offer is not delivered. */
  function Run(r: Round, es: seq<Event>): Round
    decreases |es|
  {
    if es == [] then r
    else Run(if Enabled(r, es[0]) then Step(r, es[0]) else r, es[1..])
  }

  lemma StepPreservesValid(r: Round, e: Event)
    requires ValidRound(r) && Enabled(r, e)
    ensures ValidRound(Step(r, e))
  {
    match e
    case FetchDone(qs) =>
    case ClickTile(a) =>
    case ClickCheck =>
    case ClickNext =>
      if r.index < |r.questions| - 1 {
        assert NextQuestion(r).selected == None;
      }
    case TimerFired =>
    case ClickPlayAgain =>
  }

  /** Every state reachable from the mounted screen satisfies the invariant. */
  lemma {:induction false} RunPreservesValid(r: Round, es: seq<Event>)
    requires ValidRound(r)
    ensures ValidRound(Run(r, es))
    decreases |es|
  {
    if es != [] {
      var r' := if Enabled(r, es[0]) then Step(r, es[0]) else r;
      if Enabled(r, es[0]) { StepPreservesValid(r, es[0]); }
      RunPreservesValid(r', es[1..]);
    }
  }

  lemma ReachableIsValid(es: seq<Event>)
    ensures ValidRound(Run(Initial(), es))
  {
    RunPreservesValid(Initial(), es);
  }

  // ---------------------------------------------------------------------
  // The same machine with "Play Again" as written

  /** `Step` with the "Play Again" button as written. */
  function StepAsWritten(r: Round, e: Event): Round
    requires Enabled(r, e)
  {
    if e.ClickPlayAgain? then PlayAgainAsWritten(r) else Step(r, e)
  }

  function RunAsWritten(r: Round, es: seq<Event>): Round
    decreases |es|
  {
    if es == [] then r
    else RunAsWritten(if Enabled(r, es[0]) then StepAsWritten(r, es[0]) else r, es[1..])
  }

  /** As written, every event still keeps the bounds (only the tiles clause
      of `ValidRound` is lost). */
  lemma StepAsWrittenKeepsBounds(r: Round, e: Event)
    requires BoundedRound(r) && Enabled(r, e)
    ensures BoundedRound(StepAsWritten(r, e))
  {
    if e.ClickNext? && r.index < |r.questions| - 1 {
      assert NextQuestion(r).selected == None;
    }
  }

  lemma {:induction false} RunAsWrittenKeepsBounds(r: Round, es: seq<Event>)
    requires BoundedRound(r)
    ensures BoundedRound(RunAsWritten(r, es))
    decreases |es|
  {
    if es != [] {
      var r' := if Enabled(r, es[0]) then StepAsWritten(r, es[0]) else r;
      if Enabled(r, es[0]) { StepAsWrittenKeepsBounds(r, es[0]); }
      RunAsWrittenKeepsBounds(r', es[1..]);
    }
  }

  /** Every state the program as written can reach keeps the index, score and
      clock bounds. */
  lemma ReachableAsWrittenIsBounded(es: seq<Event>)
    ensures BoundedRound(RunAsWritten(Initial(), es))
    ensures RunAsWritten(Initial(), es).questions != [] ==>
              RunAsWritten(Initial(), es).score <= RunAsWritten(Initial(), es).index + 1 <= |RunAsWritten(Initial(), es).questions|
  {
    RunAsWrittenKeepsBounds(Initial(), es);
  }

  // ---------------------------------------------------------------------
  // Properties of the individual transitions

  /** The first tiles are question 0's incorrect answers then its correct one,
      so the correct answer is the last tile. */
  lemma LoadLaysOutFirstTiles(r: Round, qs: seq<Question>)
    requires qs != []
    ensures Load(r, qs).questions == qs
    ensures Load(r, qs).answers == qs[0].incorrectAnswers + [qs[0].correctAnswer]
    ensures Load(r, qs).answers[|Load(r, qs).answers| - 1] == qs[0].correctAnswer
  {
  }

  /** Selecting while the result shows changes nothing; otherwise only the
      selection changes. */
  lemma SelectAnswerOnlySelects(r: Round, a: string)
    ensures r.showResult ==> SelectAnswer(r, a) == r
    ensures !r.showResult ==> SelectAnswer(r, a) == r.(selected := Some(a))
  {
  }

  /** Checking reveals the result and adds exactly one point iff the selection
      is the current question's correct answer; no other cell changes. */
  lemma CheckAnswerScoresIffCorrect(r: Round)
    requires r.index < |r.questions|
    ensures CheckAnswer(r).showResult
    ensures CheckAnswer(r).score == r.score + 1 <==> r.selected == Some(r.questions[r.index].correctAnswer)
    ensures CheckAnswer(r).score != r.score + 1 ==> CheckAnswer(r).score == r.score
    ensures CheckAnswer(r).(showResult := r.showResult, score := r.score) == r
  {
  }

  /** Moving on from a question that is not the last. */
  lemma NextQuestionAdvances(r: Round)
    requires r.index + 1 < |r.questions|
    ensures NextQuestion(r).index == r.index + 1
    ensures NextQuestion(r).selected == None && !NextQuestion(r).showResult
    ensures NextQuestion(r).timeLeft == RoundSeconds
    ensures NextQuestion(r).answers == r.questions[r.index + 1].incorrectAnswers + [r.questions[r.index + 1].correctAnswer]
    ensures NextQuestion(r).score == r.score && NextQuestion(r).gameOver == r.gameOver && NextQuestion(r).questions == r.questions
  {
  }

  /** Moving on from the last question ends the game and keeps the index, so
      it stays in bounds. */
  lemma NextQuestionOnLastEndsGame(r: Round)
    requires r.questions != [] && r.index == |r.questions| - 1
    ensures NextQuestion(r) == r.(gameOver := true)
    ensures NextQuestion(r).index < |NextQuestion(r).questions|
  {
  }

  /** A timer tick: at one second or less the clock stops at 0 and the result
      is shown; otherwise one second goes. The clock never goes negative. */
  lemma TickCountsDown(r: Round)
    requires r.timeLeft >= 0
    ensures r.timeLeft <= 1 ==> Tick(r) == r.(timeLeft := 0, showResult := true)
    ensures r.timeLeft > 1 ==> Tick(r) == r.(timeLeft := r.timeLeft - 1)
    ensures 0 <= Tick(r).timeLeft < r.timeLeft || r.timeLeft == 0 == Tick(r).timeLeft
  {
  }

  /** Under the gating of the check button, the score never exceeds the number
      of questions reached, and that never exceeds the number of questions. */
  lemma ScoreBound(r: Round)
    requires ValidRound(r) && r.questions != []
    ensures r.score <= r.index + 1 <= |r.questions|
  {
  }

  /** "Play Again" (corrected) resets the six cells, lays out question 0 again
      and leaves the questions alone; from the game-over card it yields a
      valid round. */
  lemma PlayAgainResets(r: Round)
    requires ValidRound(r) && r.questions != [] && r.gameOver
    ensures PlayAgain(r).index == 0 && PlayAgain(r).selected == None
    ensures !PlayAgain(r).showResult && PlayAgain(r).timeLeft == RoundSeconds
    ensures PlayAgain(r).score == 0 && !PlayAgain(r).gameOver
    ensures PlayAgain(r).questions == r.questions
    ensures PlayAgain(r).answers == Tiles(r.questions[0])
    ensures ValidRound(PlayAgain(r))
  {
  }

  /** As written, "Play Again" from a game over whose last question's tiles
      differ from question 0's leaves the screen showing question 0 with the
      wrong tiles: the invariant breaks. */
  lemma PlayAgainAsWrittenKeepsStaleTiles(r: Round)
    requires ValidRound(r) && r.questions != [] && r.gameOver
    requires Tiles(r.questions[0]) != Tiles(r.questions[|r.questions| - 1])
    ensures PlayAgainAsWritten(r).index == 0
    ensures PlayAgainAsWritten(r).answers == Tiles(r.questions[|r.questions| - 1])
    ensures !ValidRound(PlayAgainAsWritten(r))
  {
  }

  /** A concrete two-question game: after playing it through and pressing
      "Play Again" as written, question 0's correct answer is on no tile. */
  /** One delivered event at the head of a run. */
  lemma RunUnfoldsOnce(r: Round, e: Event, rest: seq<Event>)
    requires Enabled(r, e)
    ensures Run(r, [e] + rest) == Run(Step(r, e), rest)
  {
    assert ([e] + rest)[0] == e && ([e] + rest)[1..] == rest;
  }

  lemma PlayAgainAsWrittenHidesCorrectAnswer()
    ensures var q0 := Question(1, "Red Planet?", "Mars", ["Venus", "Jupiter", "Saturn"]);
            var q1 := Question(2, "Largest mammal?", "Blue Whale", ["Elephant", "Giraffe", "Polar Bear"]);
            var over := Run(Initial(), [FetchDone([q0, q1]), ClickTile("Venus"), ClickCheck, ClickNext,
                                        ClickTile("Elephant"), ClickCheck, ClickNext]);
            over.gameOver && over.index == 1
            && "Mars" !in PlayAgainAsWritten(over).answers
            && "Mars" in PlayAgain(over).answers
  {
    var q0 := Question(1, "Red Planet?", "Mars", ["Venus", "Jupiter", "Saturn"]);
    var q1 := Question(2, "Largest mammal?", "Blue Whale", ["Elephant", "Giraffe", "Polar Bear"]);
    var e7: seq<Event> := [];
    var e6 := [ClickNext] + e7;
    var e5 := [ClickCheck] + e6;
    var e4 := [ClickTile("Elephant")] + e5;
    var e3 := [ClickNext] + e4;
    var e2 := [ClickCheck] + e3;
    var e1 := [ClickTile("Venus")] + e2;
    var e0 := [FetchDone([q0, q1])] + e1;
    assert e0 == [FetchDone([q0, q1]), ClickTile("Venus"), ClickCheck, ClickNext,
                  ClickTile("Elephant"), ClickCheck, ClickNext];
    var s1 := Load(Initial(), [q0, q1]);
    assert s1.answers == ["Venus", "Jupiter", "Saturn", "Mars"];
    var s2 := SelectAnswer(s1, "Venus");
    var s3 := CheckAnswer(s2);
    var s4 := NextQuestion(s3);
    assert s4.answers == ["Elephant", "Giraffe", "Polar Bear", "Blue Whale"];
    var s5 := SelectAnswer(s4, "Elephant");
    var s6 := CheckAnswer(s5);
    var s7 := NextQuestion(s6);
    RunUnfoldsOnce(Initial(), FetchDone([q0, q1]), e1);
    RunUnfoldsOnce(s1, ClickTile("Venus"), e2);
    RunUnfoldsOnce(s2, ClickCheck, e3);
    RunUnfoldsOnce(s3, ClickNext, e4);
    RunUnfoldsOnce(s4, ClickTile("Elephant"), e5);
    RunUnfoldsOnce(s5, ClickCheck, e6);
    RunUnfoldsOnce(s6, ClickNext, e7);
    assert Run(Initial(), e0) == s7;
    assert PlayAgainAsWritten(s7).answers == ["Elephant", "Giraffe", "Polar Bear", "Blue Whale"];
  }

  // ---------------------------------------------------------------------
  // The game-over verdict

  datatype Verdict = Perfect | GoodJob | BetterLuck

  /** The message on the game-over card, for `score` out of `count`.  The
      source compares `score >= count / 2` in floating point; for integers
      that is `2 * score >= count`. */
  function VerdictFor(score: nat, count: nat): (v: Verdict)
    ensures v == Perfect <==> score == count
    ensures v == GoodJob <==> score != count && score as real >= count as real / 2.0
    ensures v == BetterLuck <==> score != count && score as real < count as real / 2.0
  {
    if score == count then Perfect
    else if 2 * score >= count then GoodJob
    else BetterLuck
  }

  function Rank(v: Verdict): nat {
    match v
    case BetterLuck => 0
    case GoodJob => 1
    case Perfect => 2
  }

  /** A higher score never earns a worse message. */
  lemma VerdictMonotone(s1: nat, s2: nat, count: nat)
    requires s1 <= s2 <= count
    ensures Rank(VerdictFor(s1, count)) <= Rank(VerdictFor(s2, count))
  {
  }

  /** At game over the score is out of the question count, so the verdict is
      "perfect" exactly when every question scored. */
  lemma GameOverVerdict(r: Round)
    requires ValidRound(r) && r.questions != [] && r.gameOver
    ensures r.score <= |r.questions|
    ensures VerdictFor(r.score, |r.questions|) == Perfect <==> r.score == |r.questions|
  {
  }

  // ---------------------------------------------------------------------
  // The component, with its state cells as fields

  class QuestionScreen {
    var questions: seq<Question>
    var currentQuestionIndex: nat
    var selectedAnswer: Option<string>
    var showResult: bool
    var score: nat
    var timeLeft: int
    var gameOver: bool
    var answers: seq<string>

    /** The cells as a value. */
    function View(): Round
      reads this
    {
      Round(questions, currentQuestionIndex, selectedAnswer, showResult, score, timeLeft, gameOver, answers)
    }

    ghost predicate Valid()
      reads this
    {
      ValidRound(View())
    }

    constructor ()
      ensures View() == Initial() && Valid()
    {
      questions := [];
      currentQuestionIndex := 0;
      selectedAnswer := None;
      showResult := false;
      score := 0;
      timeLeft := RoundSeconds;
      gameOver := false;
      answers := [];
    }

    /** The fetch effect stores the questions; the answers effect then lays
        out the tiles of question 0. */
    method ReceiveQuestions(data: seq<Question>)
      requires Valid() && questions == []
      modifies this
      ensures Valid() && View() == Load(old(View()), data)
    {
      questions := data;
      if |questions| > 0 {
        answers := Tiles(questions[0]);
      }
      StepPreservesValid(old(View()), FetchDone(data));
    }

    method HandleAnswerSelect(answer: string)
      requires Valid() && Playing(View()) && answer in answers
      modifies this
      ensures Valid() && View() == SelectAnswer(old(View()), answer)
    {
      StepPreservesValid(View(), ClickTile(answer));
      if showResult {
        return;
      }
      selectedAnswer := Some(answer);
    }

    method HandleCheckAnswer()
      requires Valid() && Playing(View()) && !showResult && Truthy(selectedAnswer)
      modifies this
      ensures Valid() && View() == CheckAnswer(old(View()))
    {
      StepPreservesValid(View(), ClickCheck);
      showResult := true;
      if selectedAnswer == Some(questions[currentQuestionIndex].correctAnswer) {
        score := score + 1;
      }
    }

    method HandleNextQuestion()
      requires Valid() && Playing(View()) && showResult
      modifies this
      ensures Valid() && View() == NextQuestion(old(View()))
    {
      StepPreservesValid(View(), ClickNext);
      if currentQuestionIndex < |questions| - 1 {
        var next := questions[currentQuestionIndex + 1];
        currentQuestionIndex := currentQuestionIndex + 1;
        selectedAnswer := None;
        showResult := false;
        timeLeft := RoundSeconds;
        answers := Tiles(next);
      } else {
        gameOver := true;
      }
    }

    /** One firing of the one-second interval, which only runs while neither
        the result nor the game-over card is shown. */
    method TimerTick()
      requires Valid() && !showResult && !gameOver
      modifies this
      ensures Valid() && View() == Tick(old(View()))
      ensures 0 <= timeLeft
    {
      StepPreservesValid(View(), TimerFired);
      if timeLeft <= 1 {
        showResult := true;
        timeLeft := 0;
      } else {
        timeLeft := timeLeft - 1;
      }
    }

    /** "Play Again", corrected to lay out question 0's tiles again. */
    method PlayAgainClicked()
      requires Valid() && questions != [] && gameOver
      modifies this
      ensures Valid() && View() == PlayAgain(old(View()))
    {
      StepPreservesValid(View(), ClickPlayAgain);
      currentQuestionIndex := 0;
      selectedAnswer := None;
      showResult := false;
      timeLeft := RoundSeconds;
      score := 0;
      gameOver := false;
      answers := Tiles(questions[0]);
    }

    /** The message of the game-over card. */
    method Verdict() returns (v: Verdict)
      requires Valid() && questions != [] && gameOver
      ensures v == Perfect <==> score == |questions|
      ensures v == GoodJob <==> score < |questions| && 2 * score >= |questions|
      ensures v == BetterLuck <==> 2 * score < |questions|
    {
      GameOverVerdict(View());
      v := VerdictFor(score, |questions|);
    }
  }
}
