/**
 * The quiz-battle game of src/pages/Index.tsx as a transition system on
 * values. `GameState` is a snapshot of the component's ten state cells;
 * each handler is one function from the snapshot before the event to the
 * snapshot after it. React batches a handler's setters, so every handler
 * reads the state before the event and its updates apply together.
 */
module Machine {
  import opened Text
  import opened QuizData

  datatype Screen = Setup | CategorySelect | Quiz | Results

  /** `currentTeam`: the literal type `1 | 2`. */
  type TeamId = t: int | t == 1 || t == 2 witness 1

  function Other(t: TeamId): TeamId {
    if t == 1 then 2 else 1
  }

  /** The state cells `screen` … `showAnswer`. An empty `selectedCategory`
      or `selectedAnswer` is the source's "nothing chosen". */
  datatype GameState = GameState(
    screen: Screen,
    team1Name: string,
    team2Name: string,
    team1Score: int,
    team2Score: int,
    currentTeam: TeamId,
    selectedCategory: string,
    currentQuestionIndex: nat,
    selectedAnswer: string,
    showAnswer: bool)

  /** The initial values given to the state cells. */
  function Initial(): GameState {
    GameState(Setup, "", "", 0, 0, 1, "", 0, "", false)
  }

  /** The question on show, if any. */
  function Current(catalog: Catalog, s: GameState): Option<Question> {
    CurrentQuestion(catalog, s.selectedCategory, s.currentQuestionIndex)
  }

  // ---------------------------------------------------------------------
  // The handlers

  /** The `onChange` of either name input. */
  function SetTeamName(s: GameState, team: TeamId, name: string): GameState {
    if team == 1 then s.(team1Name := name) else s.(team2Name := name)
  }

  datatype StartOutcome = Started | MissingTeamName

  /** `startGame`: on to category choice when both names are non-blank. */
  function StartOutcomeOf(s: GameState): StartOutcome {
    if HasName(s.team1Name) && HasName(s.team2Name) then Started else MissingTeamName
  }

  function StartGame(s: GameState): GameState {
    if StartOutcomeOf(s) == Started then s.(screen := CategorySelect) else s
  }

  /** `selectCategory(category)`; it touches neither the selection nor the
      reveal flag. */
  function SelectCategory(s: GameState, category: string): GameState {
    s.(selectedCategory := category, currentQuestionIndex := 0, screen := Quiz)
  }

  /** The `onClick` of an answer option: ignored once the answer is shown. */
  function ChooseOption(s: GameState, option: string): GameState {
    if !s.showAnswer then s.(selectedAnswer := option) else s
  }

  datatype SubmitOutcome = NoAnswerSelected | Correct(team: TeamId, points: int) | Incorrect

  /** What `submitAnswer` finds: no selection, the selection equal to the
      current question's `correct` (`currentQuestion?.points || 0` is then the
      question's points), or any other selection, including one made when
      there is no current question (`=== undefined` is false). */
  function SubmitOutcomeOf(catalog: Catalog, s: GameState): SubmitOutcome {
    var q := Current(catalog, s);
    if s.selectedAnswer == "" then NoAnswerSelected
    else if q.Some? && s.selectedAnswer == q.value.correct then Correct(s.currentTeam, q.value.points)
    else Incorrect
  }

  /** `submitAnswer`. */
  function SubmitAnswer(catalog: Catalog, s: GameState): GameState {
    match SubmitOutcomeOf(catalog, s)
    case NoAnswerSelected => s
    case Incorrect => s.(showAnswer := true)
    case Correct(team, points) =>
      if team == 1 then s.(showAnswer := true, team1Score := s.team1Score + points)
      else s.(showAnswer := true, team2Score := s.team2Score + points)
  }

  /** `nextQuestion`: the next question and the other team, or the results
      screen after the last question. */
  function NextQuestion(catalog: Catalog, s: GameState): GameState {
    if s.currentQuestionIndex + 1 < TotalQuestions(catalog, s.selectedCategory) then
      s.(currentQuestionIndex := s.currentQuestionIndex + 1, selectedAnswer := "",
         showAnswer := false, currentTeam := Other(s.currentTeam))
    else
      s.(screen := Results)
  }

  /** The "Choose Another Category" button. */
  function BackToCategories(s: GameState): GameState {
    s.(screen := CategorySelect, selectedAnswer := "", showAnswer := false)
  }

  /** `resetGame`: every cell back to its initial value. */
  function ResetGame(s: GameState): GameState {
    Initial()
  }

  // ---------------------------------------------------------------------
  // Events, runs, and which events the rendered screen offers

  datatype Event =
    | EditName(team: TeamId, name: string)
    | Start
    | PickCategory(category: string)
    | Choose(option: string)
    | Submit
    | Next
    | Back
    | Reset

  function Step(catalog: Catalog, s: GameState, e: Event): GameState {
    match e
    case EditName(team, name) => SetTeamName(s, team, name)
    case Start => StartGame(s)
    case PickCategory(c) => SelectCategory(s, c)
    case Choose(o) => ChooseOption(s, o)
    case Submit => SubmitAnswer(catalog, s)
    case Next => NextQuestion(catalog, s)
    case Back => BackToCategories(s)
    case Reset => ResetGame(s)
  }

  /** The state after the events of `es`, in order. */
  function Run(catalog: Catalog, s: GameState, es: seq<Event>): GameState
    decreases |es|
  {
    if es == [] then s else Run(catalog, Step(catalog, s, es[0]), es[1..])
  }

  /** Whether the rendered page offers a control that fires `e`: the setup
      inputs and Start button on the setup screen; one card per catalog key
      on the category screen; on the quiz screen, shown only with a current
      question, the option buttons (disabled once the answer is shown), the
      Submit button before the reveal, and Back and Next after it; the Play
      Again button on the results screen. */
  predicate Enabled(catalog: Catalog, s: GameState, e: Event) {
    match e
    case EditName(_, _) => s.screen == Setup
    case Start => s.screen == Setup
    case PickCategory(c) => s.screen == CategorySelect && c in catalog
    case Choose(o) =>
      s.screen == Quiz && Current(catalog, s).Some? && !s.showAnswer
      && o in Current(catalog, s).value.options
    case Submit => s.screen == Quiz && Current(catalog, s).Some? && !s.showAnswer
    case Next => s.screen == Quiz && Current(catalog, s).Some? && s.showAnswer
    case Back => s.screen == Quiz && Current(catalog, s).Some? && s.showAnswer
    case Reset => s.screen == Results
  }

  /** Every event of `es` is offered by the page in the state it meets. */
  predicate Playable(catalog: Catalog, s: GameState, es: seq<Event>)
    decreases |es|
  {
    es == [] || (Enabled(catalog, s, es[0]) && Playable(catalog, Step(catalog, s, es[0]), es[1..]))
  }

  /** The invariant of a game played through the page. */
  predicate Valid(catalog: Catalog, s: GameState) {
    s.team1Score >= 0 && s.team2Score >= 0
    && (s.screen == Setup ==>
          s.team1Score == 0 && s.team2Score == 0 && s.currentTeam == 1
          && s.selectedCategory == "" && s.currentQuestionIndex == 0
          && s.selectedAnswer == "" && !s.showAnswer)
    && (s.screen != Setup ==> HasName(s.team1Name) && HasName(s.team2Name))
    && (s.screen == CategorySelect ==> s.selectedAnswer == "" && !s.showAnswer)
    && (s.screen == Quiz ==>
          s.selectedCategory in catalog
          && s.currentQuestionIndex < |catalog[s.selectedCategory].questions|
          && (s.showAnswer ==> s.selectedAnswer != "")
          && (s.selectedAnswer != "" ==>
                s.selectedAnswer in catalog[s.selectedCategory].questions[s.currentQuestionIndex].options))
  }

  // ---------------------------------------------------------------------
  // The results screen

  datatype Verdict = Team1Wins | Team2Wins | Tie

  /** The three-way choice of the results heading. */
  function Winner(team1Score: int, team2Score: int): (v: Verdict)
    ensures v == Team1Wins <==> team1Score > team2Score
    ensures v == Team2Wins <==> team2Score > team1Score
    ensures v == Tie <==> team1Score == team2Score
  {
    if team1Score > team2Score then Team1Wins
    else if team2Score > team1Score then Team2Wins
    else Tie
  }

  /** The results heading: the winning team's name, or a tie. */
  function ResultsHeadline(s: GameState): (h: string)
    ensures s.team1Score > s.team2Score ==> h == s.team1Name + " Wins!"
    ensures s.team2Score > s.team1Score ==> h == s.team2Name + " Wins!"
    ensures s.team1Score == s.team2Score ==> h == "It's a Tie!"
  {
    match Winner(s.team1Score, s.team2Score)
    case Team1Wins => s.team1Name + " Wins!"
    case Team2Wins => s.team2Name + " Wins!"
    case Tie => "It's a Tie!"
  }
}
