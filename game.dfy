/**
 * The `Index` component's state cells and event handlers
 * (src/pages/Index.tsx) as an object: one field per `useState` cell, one
 * method per handler. A method reads the fields as they were before the
 * event and then assigns all of its updates, as React applies a handler's
 * batched setters together. Each method states its new fields and ties the
 * snapshot `State()` to the matching transition of `Machine`, so every
 * property of `Properties` carries over to the object. Each method also
 * keeps the invariant `Valid` when the page offers its event.
 */
module Game {
  import opened Text
  import opened QuizData
  import opened Machine
  import Properties

  class QuizBattle {
    /** `quizData`, once loaded. */
    const catalog: Catalog

    var screen: Screen
    var team1Name: string
    var team2Name: string
    var team1Score: int
    var team2Score: int
    var currentTeam: TeamId
    var selectedCategory: string
    var currentQuestionIndex: nat
    var selectedAnswer: string
    var showAnswer: bool

    /** The current values of the state cells. */
    function State(): GameState
      reads this
    {
      GameState(screen, team1Name, team2Name, team1Score, team2Score, currentTeam,
                selectedCategory, currentQuestionIndex, selectedAnswer, showAnswer)
    }

    /** The component as first rendered after the catalog has loaded. */
    constructor (catalog: Catalog)
      ensures this.catalog == catalog
      ensures State() == Initial()
      ensures Valid(catalog, State())
    {
      this.catalog := catalog;
      screen := Setup;
      team1Name, team2Name := "", "";
      team1Score, team2Score := 0, 0;
      currentTeam := 1;
      selectedCategory := "";
      currentQuestionIndex := 0;
      selectedAnswer := "";
      showAnswer := false;
    }

    /** The `onChange` of the name input of `team`. */
    method SetTeamName(team: TeamId, name: string)
      modifies this
      ensures team == 1 ==> team1Name == name && team2Name == old(team2Name)
      ensures team == 2 ==> team2Name == name && team1Name == old(team1Name)
      ensures State() == Machine.SetTeamName(old(State()), team, name)
      ensures WellFormed(catalog) && old(Valid(catalog, State()) && Enabled(catalog, State(), EditName(team, name))) ==>
        Valid(catalog, State())
    {
      ghost var before := State();
      if WellFormed(catalog) && Valid(catalog, before) && Enabled(catalog, before, EditName(team, name)) {
        Properties.StepKeepsValid(catalog, before, EditName(team, name));
      }
      if team == 1 {
        team1Name := name;
      } else {
        team2Name := name;
      }
    }

    /** `startGame`. */
    method StartGame() returns (outcome: StartOutcome)
      modifies this
      ensures outcome == Started <==> HasName(old(team1Name)) && HasName(old(team2Name))
      ensures outcome == Started ==> State() == old(State()).(screen := CategorySelect)
      ensures outcome == MissingTeamName ==> State() == old(State())
      ensures State() == Machine.StartGame(old(State()))
      ensures WellFormed(catalog) && old(Valid(catalog, State()) && Enabled(catalog, State(), Start)) ==>
        Valid(catalog, State())
    {
      ghost var before := State();
      if Valid(catalog, before) && before.screen == Setup {
        Properties.StartKeepsValid(catalog, before);
      }
      if HasName(team1Name) && HasName(team2Name) {
        screen := CategorySelect;
        outcome := Started;
      } else {
        outcome := MissingTeamName;
      }
    }

    /** `selectCategory(category)`. */
    method SelectCategory(category: string)
      modifies this
      ensures State() == old(State()).(selectedCategory := category, currentQuestionIndex := 0, screen := Quiz)
      ensures State() == Machine.SelectCategory(old(State()), category)
      ensures WellFormed(catalog) && old(Valid(catalog, State()) && Enabled(catalog, State(), PickCategory(category))) ==>
        Valid(catalog, State())
    {
      ghost var before := State();
      if WellFormed(catalog) && Valid(catalog, before) && Enabled(catalog, before, PickCategory(category)) {
        Properties.StepKeepsValid(catalog, before, PickCategory(category));
      }
      selectedCategory := category;
      currentQuestionIndex := 0;
      screen := Quiz;
    }

    /** The answer option buttons' `onClick`. */
    method ChooseOption(option: string)
      modifies this
      ensures State() == if old(showAnswer) then old(State()) else old(State()).(selectedAnswer := option)
      ensures State() == Machine.ChooseOption(old(State()), option)
      ensures WellFormed(catalog) && old(Valid(catalog, State()) && Enabled(catalog, State(), Choose(option))) ==>
        Valid(catalog, State())
    {
      ghost var before := State();
      if WellFormed(catalog) && Valid(catalog, before) && Enabled(catalog, before, Choose(option)) {
        Properties.StepKeepsValid(catalog, before, Choose(option));
      }
      if !showAnswer {
        selectedAnswer := option;
      }
    }

    /** `submitAnswer`. */
    method SubmitAnswer() returns (outcome: SubmitOutcome)
      modifies this
      ensures outcome == SubmitOutcomeOf(catalog, old(State()))
      ensures outcome == NoAnswerSelected ==> State() == old(State())
      ensures outcome == Incorrect ==> State() == old(State()).(showAnswer := true)
      ensures outcome.Correct? && outcome.team == 1 ==>
        State() == old(State()).(showAnswer := true, team1Score := old(team1Score) + outcome.points)
      ensures outcome.Correct? && outcome.team == 2 ==>
        State() == old(State()).(showAnswer := true, team2Score := old(team2Score) + outcome.points)
      ensures State() == Machine.SubmitAnswer(catalog, old(State()))
      ensures WellFormed(catalog) && old(Valid(catalog, State()) && Enabled(catalog, State(), Submit)) ==>
        Valid(catalog, State())
    {
      ghost var before := State();
      if WellFormed(catalog) && Valid(catalog, before) && Enabled(catalog, before, Submit) {
        Properties.StepKeepsValid(catalog, before, Submit);
      }
      if selectedAnswer == "" {
        return NoAnswerSelected;
      }
      var q := CurrentQuestion(catalog, selectedCategory, currentQuestionIndex);
      var team := currentTeam;
      showAnswer := true;
      if q.Some? && selectedAnswer == q.value.correct {
        if team == 1 {
          team1Score := team1Score + q.value.points;
        } else {
          team2Score := team2Score + q.value.points;
        }
        outcome := Correct(team, q.value.points);
      } else {
        outcome := Incorrect;
      }
    }

    /** `nextQuestion`. */
    method NextQuestion() returns (advanced: bool)
      modifies this
      ensures advanced <==> old(currentQuestionIndex) + 1 < TotalQuestions(catalog, old(selectedCategory))
      ensures advanced ==>
        State() == old(State()).(currentQuestionIndex := old(currentQuestionIndex) + 1,
                                 selectedAnswer := "", showAnswer := false,
                                 currentTeam := Other(old(currentTeam)))
      ensures !advanced ==> State() == old(State()).(screen := Results)
      ensures State() == Machine.NextQuestion(catalog, old(State()))
      ensures WellFormed(catalog) && old(Valid(catalog, State()) && Enabled(catalog, State(), Next)) ==>
        Valid(catalog, State())
    {
      ghost var before := State();
      if WellFormed(catalog) && Valid(catalog, before) && Enabled(catalog, before, Next) {
        Properties.StepKeepsValid(catalog, before, Next);
      }
      var totalQuestions := TotalQuestions(catalog, selectedCategory);
      advanced := currentQuestionIndex + 1 < totalQuestions;
      if advanced {
        currentQuestionIndex := currentQuestionIndex + 1;
        selectedAnswer := "";
        showAnswer := false;
        currentTeam := if currentTeam == 1 then 2 else 1;
      } else {
        screen := Results;
      }
    }

    /** The "Choose Another Category" button. */
    method BackToCategories()
      modifies this
      ensures State() == old(State()).(screen := CategorySelect, selectedAnswer := "", showAnswer := false)
      ensures State() == Machine.BackToCategories(old(State()))
      ensures WellFormed(catalog) && old(Valid(catalog, State()) && Enabled(catalog, State(), Back)) ==>
        Valid(catalog, State())
    {
      ghost var before := State();
      if WellFormed(catalog) && Valid(catalog, before) && Enabled(catalog, before, Back) {
        Properties.StepKeepsValid(catalog, before, Back);
      }
      screen := CategorySelect;
      selectedAnswer := "";
      showAnswer := false;
    }

    /** `resetGame`. */
    method ResetGame()
      modifies this
      ensures State() == Initial()
      ensures State() == Machine.ResetGame(old(State()))
      ensures WellFormed(catalog) && old(Valid(catalog, State()) && Enabled(catalog, State(), Reset)) ==>
        Valid(catalog, State())
    {
      ghost var before := State();
      if WellFormed(catalog) && Valid(catalog, before) && Enabled(catalog, before, Reset) {
        Properties.StepKeepsValid(catalog, before, Reset);
      }
      screen := Setup;
      team1Name := "";
      team2Name := "";
      team1Score := 0;
      team2Score := 0;
      currentTeam := 1;
      selectedCategory := "";
      currentQuestionIndex := 0;
      selectedAnswer := "";
      showAnswer := false;
    }
  }
}
