/**
 * What the handlers of the quiz-battle game promise, one at a time and
 * over whole games.
 */
module Properties {
  import opened Text
  import opened QuizData
  import opened Machine

  // ---------------------------------------------------------------------
  // One handler at a time

  /** `startGame` leaves setup exactly when neither name is blank, and
      otherwise changes nothing. */
  lemma StartGameGuard(s: GameState)
    ensures !IsBlank(s.team1Name) && !IsBlank(s.team2Name) ==>
      StartGame(s) == s.(screen := CategorySelect) && StartOutcomeOf(s) == Started
    ensures IsBlank(s.team1Name) || IsBlank(s.team2Name) ==>
      StartGame(s) == s && StartOutcomeOf(s) == MissingTeamName
  {
  }

  /** `selectCategory` always starts the chosen category from its first
      question, whatever the index was, and keeps names, scores and turn. */
  lemma SelectCategoryEffect(s: GameState, c: string)
    ensures var r := SelectCategory(s, c);
      r.screen == Quiz && r.selectedCategory == c && r.currentQuestionIndex == 0
      && r.team1Name == s.team1Name && r.team2Name == s.team2Name
      && r.team1Score == s.team1Score && r.team2Score == s.team2Score
      && r.currentTeam == s.currentTeam
      && r.selectedAnswer == s.selectedAnswer && r.showAnswer == s.showAnswer
  {
  }

  /** Picking an option only records it, and only while the answer is hidden. */
  lemma ChooseOptionEffect(s: GameState, o: string)
    ensures !s.showAnswer ==> ChooseOption(s, o) == s.(selectedAnswer := o)
    ensures s.showAnswer ==> ChooseOption(s, o) == s
  {
  }

  /** `submitAnswer` with nothing selected is rejected and changes nothing. */
  lemma SubmitWithoutSelection(catalog: Catalog, s: GameState)
    requires s.selectedAnswer == ""
    ensures SubmitAnswer(catalog, s) == s
    ensures SubmitOutcomeOf(catalog, s) == NoAnswerSelected
  {
  }

  /** `submitAnswer` with a selection reveals the answer and adds the
      question's points to the team whose turn it is exactly when the
      selection is the correct option; the other team's score, the turn and
      everything else stay as they were. */
  lemma SubmitScoring(catalog: Catalog, s: GameState)
    requires s.selectedAnswer != ""
    ensures var r := SubmitAnswer(catalog, s);
      var q := Current(catalog, s);
      var gain := if q.Some? && s.selectedAnswer == q.value.correct then q.value.points else 0;
      r.showAnswer
      && r.team1Score == s.team1Score + (if s.currentTeam == 1 then gain else 0)
      && r.team2Score == s.team2Score + (if s.currentTeam == 2 then gain else 0)
      && r.currentTeam == s.currentTeam
      && r == s.(showAnswer := true, team1Score := r.team1Score, team2Score := r.team2Score)
  {
  }

  /** `nextQuestion` before the last question moves to the next one, clears
      the answer and hands the turn over; on the last question it only shows
      the results. */
  lemma NextQuestionEffect(catalog: Catalog, s: GameState)
    ensures var r := NextQuestion(catalog, s);
      if s.currentQuestionIndex + 1 < TotalQuestions(catalog, s.selectedCategory) then
        r.currentQuestionIndex == s.currentQuestionIndex + 1
        && r.selectedAnswer == "" && !r.showAnswer
        && r.currentTeam != s.currentTeam
        && r == s.(currentQuestionIndex := r.currentQuestionIndex, selectedAnswer := "",
                   showAnswer := false, currentTeam := r.currentTeam)
      else
        r == s.(screen := Results)
  {
  }

  /** "Choose Another Category" returns to the category screen with the
      answer cleared, keeping names, scores, turn and question index. */
  lemma BackToCategoriesEffect(s: GameState)
    ensures var r := BackToCategories(s);
      r.screen == CategorySelect && r.selectedAnswer == "" && !r.showAnswer
      && r.team1Name == s.team1Name && r.team2Name == s.team2Name
      && r.team1Score == s.team1Score && r.team2Score == s.team2Score
      && r.currentTeam == s.currentTeam
  {
  }

  /** `resetGame` yields the initial state from any state, so doing it twice
      is doing it once. */
  lemma ResetGameRestoresInitial(catalog: Catalog, s: GameState)
    ensures var r := Step(catalog, s, Reset);
      r.screen == Setup && r.team1Name == "" && r.team2Name == ""
      && r.team1Score == 0 && r.team2Score == 0 && r.currentTeam == 1
      && r.selectedCategory == "" && r.currentQuestionIndex == 0
      && r.selectedAnswer == "" && !r.showAnswer
    ensures Step(catalog, Step(catalog, s, Reset), Reset) == Step(catalog, s, Reset)
  {
  }

  /** The turn changes only when `nextQuestion` advances, or on reset. */
  lemma TurnChangesOnlyOnAdvance(catalog: Catalog, s: GameState, e: Event)
    ensures Step(catalog, s, e).currentTeam != s.currentTeam ==>
      e == Reset
      || (e == Next && s.currentQuestionIndex + 1 < TotalQuestions(catalog, s.selectedCategory))
  {
  }

  /** Outside reset, a score changes only through a correct submitted answer,
      and then by exactly that question's points for the team on turn. */
  lemma ScoresChangeOnlyOnCorrectAnswer(catalog: Catalog, s: GameState, e: Event)
    requires e != Reset
    ensures var r := Step(catalog, s, e);
      (r.team1Score == s.team1Score && r.team2Score == s.team2Score)
      || (e == Submit && SubmitOutcomeOf(catalog, s).Correct?
          && r.team1Score == s.team1Score + (if s.currentTeam == 1 then Current(catalog, s).value.points else 0)
          && r.team2Score == s.team2Score + (if s.currentTeam == 2 then Current(catalog, s).value.points else 0))
  {
  }

  /** Once the game has left the setup screen the page offers no way to
      change a team name, short of resetting. */
  lemma NamesFixedAfterSetup(catalog: Catalog, s: GameState, e: Event)
    requires s.screen != Setup && Enabled(catalog, s, e) && e != Reset
    ensures Step(catalog, s, e).team1Name == s.team1Name
    ensures Step(catalog, s, e).team2Name == s.team2Name
  {
  }

  /** On the quiz screen without a current question (a category with no
      questions) the page renders no control at all: the game is stuck. */
  lemma NoQuestionNoControls(catalog: Catalog, s: GameState, e: Event)
    requires s.screen == Quiz && Current(catalog, s).None?
    ensures !Enabled(catalog, s, e)
  {
  }

  // ---------------------------------------------------------------------
  // The invariant

  lemma InitialValid(catalog: Catalog)
    ensures Valid(catalog, Initial())
  {
  }

  /** Every event the page offers keeps the invariant. */
  lemma StepKeepsValid(catalog: Catalog, s: GameState, e: Event)
    requires WellFormed(catalog) && Valid(catalog, s) && Enabled(catalog, s, e)
    ensures Valid(catalog, Step(catalog, s, e))
  {
    match e
    case EditName(team, name) =>
    case Start => StartKeepsValid(catalog, s);
    case PickCategory(c) => PickCategoryKeepsValid(catalog, s, c);
    case Choose(o) => ChooseKeepsValid(catalog, s, o);
    case Submit => SubmitKeepsValid(catalog, s);
    case Next => NextKeepsValid(catalog, s);
    case Back =>
    case Reset =>
  }

  lemma StartKeepsValid(catalog: Catalog, s: GameState)
    requires Valid(catalog, s) && s.screen == Setup
    ensures Valid(catalog, StartGame(s))
  {
  }

  lemma PickCategoryKeepsValid(catalog: Catalog, s: GameState, c: string)
    requires WellFormed(catalog) && Valid(catalog, s) && s.screen == CategorySelect && c in catalog
    ensures Valid(catalog, SelectCategory(s, c))
  {
    assert |catalog[c].questions| >= 1;
  }

  lemma ChooseKeepsValid(catalog: Catalog, s: GameState, o: string)
    requires Valid(catalog, s) && Enabled(catalog, s, Choose(o))
    ensures Valid(catalog, ChooseOption(s, o))
  {
  }

  lemma SubmitKeepsValid(catalog: Catalog, s: GameState)
    requires WellFormed(catalog) && Valid(catalog, s) && Enabled(catalog, s, Submit)
    ensures Valid(catalog, SubmitAnswer(catalog, s))
  {
    var q := Current(catalog, s);
    if SubmitOutcomeOf(catalog, s).Correct? {
      assert q.value == catalog[s.selectedCategory].questions[s.currentQuestionIndex];
      assert q.value.points >= 0;
    }
  }

  lemma NextKeepsValid(catalog: Catalog, s: GameState)
    requires Valid(catalog, s) && Enabled(catalog, s, Next)
    ensures Valid(catalog, NextQuestion(catalog, s))
  {
  }

  /** A game played through the page keeps the invariant throughout. */
  lemma {:induction false} RunKeepsValid(catalog: Catalog, s: GameState, es: seq<Event>)
    requires WellFormed(catalog) && Valid(catalog, s) && Playable(catalog, s, es)
    ensures Valid(catalog, Run(catalog, s, es))
    decreases |es|
  {
    if es != [] {
      StepKeepsValid(catalog, s, es[0]);
      RunKeepsValid(catalog, Step(catalog, s, es[0]), es[1..]);
    }
  }

  /** In any game played from the start, whenever the quiz screen shows, the
      question index lies within the selected category and a question is on
      show; scores are never negative. */
  lemma QuestionIndexInBounds(catalog: Catalog, es: seq<Event>)
    requires WellFormed(catalog) && Playable(catalog, Initial(), es)
    ensures var r := Run(catalog, Initial(), es);
      r.team1Score >= 0 && r.team2Score >= 0
      && (r.screen == Quiz ==>
            r.selectedCategory in catalog
            && r.currentQuestionIndex < |catalog[r.selectedCategory].questions|
            && Current(catalog, r).Some?)
  {
    InitialValid(catalog);
    RunKeepsValid(catalog, Initial(), es);
  }

  // ---------------------------------------------------------------------
  // Progress through a category

  /** `nextQuestion` applied `k` times. */
  function NextTimes(catalog: Catalog, s: GameState, k: nat): GameState
    decreases k
  {
    if k == 0 then s else NextTimes(catalog, NextQuestion(catalog, s), k - 1)
  }

  /** From question `i` of a category of `n` questions, `k` further calls of
      `nextQuestion` that stay before the last question reach question
      `i + k`, with the turn handed over once per call. */
  lemma {:induction false} NextTimesAdvances(catalog: Catalog, s: GameState, k: nat)
    requires s.screen == Quiz && s.selectedCategory in catalog
    requires s.currentQuestionIndex + k < |catalog[s.selectedCategory].questions|
    ensures var r := NextTimes(catalog, s, k);
      r.screen == Quiz && r.selectedCategory == s.selectedCategory
      && r.currentQuestionIndex == s.currentQuestionIndex + k
      && r.currentTeam == (if k % 2 == 0 then s.currentTeam else Other(s.currentTeam))
      && r.team1Score == s.team1Score && r.team2Score == s.team2Score
    decreases k
  {
    if k > 0 {
      var t := NextQuestion(catalog, s);
      assert t.currentQuestionIndex == s.currentQuestionIndex + 1 && t.currentTeam == Other(s.currentTeam);
      NextTimesAdvances(catalog, t, k - 1);
    }
  }

  /** Starting a category of `n >= 1` questions at its first question, the
      results screen is reached by exactly `n` calls of `nextQuestion`: every
      smaller number of calls leaves the quiz screen on question `k`. */
  lemma ExactlyNCallsReachResults(catalog: Catalog, s: GameState)
    requires s.screen == Quiz && s.selectedCategory in catalog && s.currentQuestionIndex == 0
    requires |catalog[s.selectedCategory].questions| >= 1
    ensures var n := |catalog[s.selectedCategory].questions|;
      (forall k: nat :: k < n ==>
         NextTimes(catalog, s, k).screen == Quiz && NextTimes(catalog, s, k).currentQuestionIndex == k)
      && NextTimes(catalog, s, n).screen == Results
      && NextTimes(catalog, s, n).currentQuestionIndex == n - 1
  {
    var n := |catalog[s.selectedCategory].questions|;
    forall k: nat | k < n
      ensures NextTimes(catalog, s, k).screen == Quiz && NextTimes(catalog, s, k).currentQuestionIndex == k
    {
      NextTimesAdvances(catalog, s, k);
    }
    NextTimesAdvances(catalog, s, n - 1);
    NextTimesLast(catalog, s, n - 1);
  }

  /** One call more than the calls that reach the last question. */
  lemma {:induction false} NextTimesLast(catalog: Catalog, s: GameState, k: nat)
    requires s.screen == Quiz && s.selectedCategory in catalog
    requires s.currentQuestionIndex + k + 1 == |catalog[s.selectedCategory].questions|
    ensures NextTimes(catalog, s, k + 1) == NextTimes(catalog, s, k).(screen := Results)
    decreases k
  {
    if k == 0 {
      assert NextTimes(catalog, s, 1) == NextTimes(catalog, NextQuestion(catalog, s), 0);
    } else {
      NextTimesLast(catalog, NextQuestion(catalog, s), k - 1);
    }
  }

  // ---------------------------------------------------------------------
  // A whole category played through

  /** The events of one round per answer: pick the answer, submit it, go on. */
  function Rounds(answers: seq<string>): seq<Event>
  {
    if answers == [] then [] else [Choose(answers[0]), Submit, Next] + Rounds(answers[1..])
  }

  /** The points `team` earns answering `questions[i..]` with `answers`,
      the turn starting with `turn` and alternating every question. */
  function Earned(questions: seq<Question>, answers: seq<string>, i: nat, turn: TeamId, team: TeamId): int
    requires i + |answers| == |questions|
    decreases |answers|
  {
    if answers == [] then 0
    else
      (if turn == team && answers[0] == questions[i].correct then questions[i].points else 0)
      + Earned(questions, answers[1..], i + 1, Other(turn), team)
  }

  /** Playing the rest of a category, one round per remaining question, ends
      on the results screen with each team's score raised by exactly the
      points of the questions it answered correctly on its own turns. */
  lemma {:induction false} PlayThroughCategory(catalog: Catalog, s: GameState, answers: seq<string>)
    requires s.screen == Quiz && s.selectedCategory in catalog && !s.showAnswer
    requires |answers| >= 1
    requires s.currentQuestionIndex + |answers| == |catalog[s.selectedCategory].questions|
    requires forall k :: 0 <= k < |answers| ==> answers[k] != ""
    ensures var qs := catalog[s.selectedCategory].questions;
      var r := Run(catalog, s, Rounds(answers));
      r.screen == Results
      && r.team1Score == s.team1Score + Earned(qs, answers, s.currentQuestionIndex, s.currentTeam, 1)
      && r.team2Score == s.team2Score + Earned(qs, answers, s.currentQuestionIndex, s.currentTeam, 2)
    decreases |answers|
  {
    var qs := catalog[s.selectedCategory].questions;
    var s1 := Step(catalog, s, Choose(answers[0]));
    var s2 := Step(catalog, s1, Submit);
    var s3 := Step(catalog, s2, Next);
    RunThreeSteps(catalog, s, Choose(answers[0]), Submit, Next, Rounds(answers[1..]));
    assert Rounds(answers) == [Choose(answers[0]), Submit, Next] + Rounds(answers[1..]);
    assert s1.selectedAnswer == answers[0];
    var gain := if answers[0] == qs[s.currentQuestionIndex].correct then qs[s.currentQuestionIndex].points else 0;
    assert s2.team1Score == s.team1Score + (if s.currentTeam == 1 then gain else 0);
    assert s2.team2Score == s.team2Score + (if s.currentTeam == 2 then gain else 0);
    if |answers| == 1 {
      assert s3.screen == Results;
      assert Rounds(answers[1..]) == [];
    } else {
      assert s3.currentQuestionIndex == s.currentQuestionIndex + 1;
      assert s3.currentTeam == Other(s.currentTeam);
      PlayThroughCategory(catalog, s3, answers[1..]);
    }
  }

  /** Running three events and then the rest. */
  lemma RunThreeSteps(catalog: Catalog, s: GameState, a: Event, b: Event, c: Event, rest: seq<Event>)
    ensures Run(catalog, s, [a, b, c] + rest)
         == Run(catalog, Step(catalog, Step(catalog, Step(catalog, s, a), b), c), rest)
  {
    var es := [a, b, c] + rest;
    var s1 := Step(catalog, s, a);
    var s2 := Step(catalog, s1, b);
    assert es[0] == a && es[1..] == [b, c] + rest;
    assert Run(catalog, s, es) == Run(catalog, s1, [b, c] + rest);
    assert ([b, c] + rest)[0] == b && ([b, c] + rest)[1..] == [c] + rest;
    assert Run(catalog, s1, [b, c] + rest) == Run(catalog, s2, [c] + rest);
    assert ([c] + rest)[0] == c && ([c] + rest)[1..] == rest;
  }

  // ---------------------------------------------------------------------
  // The results screen

  /** Swapping the scores swaps the winner and keeps a tie. */
  lemma WinnerSymmetric(a: int, b: int)
    ensures Winner(a, b) == Team1Wins <==> Winner(b, a) == Team2Wins
    ensures Winner(a, b) == Tie <==> Winner(b, a) == Tie
  {
  }
}
