# Quiz Battle: the game state machine

Quiz Battle is a two-team trivia game in a single React component, `Index`,
in `src/pages/Index.tsx`. This project models only that component's game
logic: its ten state cells and the handlers that update them.

The ten state cells are the screen, the two team names, the two scores, the
team whose turn it is, the selected category, the question index, the
selected answer and the flag that shows the answer. The handlers are the two
name inputs, `startGame`, `selectCategory`, an answer option's click,
`submitAnswer`, `nextQuestion`, "Choose Another Category" and `resetGame`.

The question catalog (`quizData`) is treated as an input that is already
loaded and never changes. It maps each category name to its ordered list of
multiple-choice questions. Each question has text, an optional image, its
options, the correct option and its points.

Files:

- `text.dfy` (module `Text`): JavaScript's `String.prototype.trim`, used by
  the name check of `startGame`.
- `quiz_data.dfy` (module `QuizData`): the catalog types and two lookups.
  One is the current question (`currentQuestion`). The other is the
  question count that `nextQuestion` uses.
- `machine.dfy` (module `Machine`): the game as a transition system on
  snapshots of the state cells.
  - One function per handler.
  - `Step` and `Run` apply events to a snapshot.
  - `Enabled` says which events the rendered page offers in a given state.
  - `Valid` is the invariant of a game played through the page.
  - `Winner` and `ResultsHeadline` give the verdict on the results screen.
- `properties.dfy` (module `Properties`): lemmas about the handlers.
  - What each handler changes and what it leaves alone.
  - Every event the page offers keeps `Valid`.
  - Exactly `n` calls of `nextQuestion` reach the results screen.
  - Playing a whole category gives each team exactly the points of the
    questions it answered correctly on its own turns.
- `game.dfy` (module `Game`): class `QuizBattle`, the component as an object.
  - It has one field per state cell.
  - It has one method per handler.
  - Every method states its new fields. It also proves that `State()`
    equals the matching `Machine` transition applied to the old state.
  - Every method also keeps `Valid` when it is called for an event the
    page offers.

No handler checks which screen is showing. For example, `selectCategory`
accepts any key, and `nextQuestion` does not check that the answer was
revealed. Those limits come only from which controls the page renders:
`Enabled` models them, and the invariants are proved for the events it
allows. The handlers' own guards are modelled as written: the trimmed-name
test of `startGame`, the early return of `submitAnswer` on an empty
selection, and the `!showAnswer` test of an option click.

## Behaviour worth noting

- `selectCategory` does not clear the reveal flag or the selected answer
  (src/pages/Index.tsx:59-63). `Valid` shows both are already clear on the
  category screen.
- `selectCategory` does not reject a key missing from the catalog; only
  catalog keys are rendered as category cards (src/pages/Index.tsx:198-201).
- "No answer selected" is the empty string (src/pages/Index.tsx:37, 68, 93).
- Only auto-graded multiple-choice questions exist. There is no manual
  award, no score adjustment and no clamping of scores at 0.

## Model

| member | source | states |
|---|---|---|
| Text.TrimStart | src/pages/Index.tsx:52 | the result is the suffix of the name left after all leading white space is removed |
| Text.TrimEnd | src/pages/Index.tsx:52 | the result is the prefix of the name left after all trailing white space is removed |
| Text.Trim | src/pages/Index.tsx:52 | the name with its leading and trailing white space removed; the result has no white space at either end, and it is empty exactly when the name is blank |
| QuizData.CurrentQuestion | src/pages/Index.tsx:65 | there is a question exactly when the category exists and the index is below its length, and then it is the question at that index |
| QuizData.TotalQuestions | src/pages/Index.tsx:89 | an index has a question on show exactly when it is below the count, which links the guard of `nextQuestion` to the lookup; the count is 0 for an unknown category |
| Machine.Initial | src/pages/Index.tsx:29-38 | the initial values of the ten state cells; `Properties.InitialValid` proves they satisfy the invariant |
| Machine.Current | src/pages/Index.tsx:65 | the question on show for a snapshot, through `QuizData.CurrentQuestion` |
| Machine.SetTeamName | src/pages/Index.tsx:160-174 | the name input's handler on snapshots; `Properties.NamesFixedAfterSetup` proves it is offered only on the setup screen |
| Machine.StartOutcomeOf | src/pages/Index.tsx:52-56 | whether `startGame` succeeds; `Properties.StartGameGuard` proves it succeeds exactly when neither name is blank |
| Machine.StartGame | src/pages/Index.tsx:51-57 | `startGame` on snapshots; its effect is stated by `Properties.StartGameGuard` |
| Machine.SelectCategory | src/pages/Index.tsx:59-63 | `selectCategory` on snapshots; its effect is stated by `Properties.SelectCategoryEffect` |
| Machine.ChooseOption | src/pages/Index.tsx:255 | an option click on snapshots; its effect is stated by `Properties.ChooseOptionEffect` |
| Machine.SubmitOutcomeOf | src/pages/Index.tsx:68-84 | the grading of `submitAnswer`: no selection, correct with the team on turn and the question's points, or incorrect; stated by `Properties.SubmitWithoutSelection` and `Properties.SubmitScoring` |
| Machine.SubmitAnswer | src/pages/Index.tsx:67-86 | `submitAnswer` on snapshots; its effect is stated by `Properties.SubmitWithoutSelection`, `Properties.SubmitScoring` and `Properties.PlayThroughCategory` |
| Machine.NextQuestion | src/pages/Index.tsx:88-99 | `nextQuestion` on snapshots; its effect is stated by `Properties.NextQuestionEffect` and `Properties.ExactlyNCallsReachResults` |
| Machine.BackToCategories | src/pages/Index.tsx:286-290 | the "Choose Another Category" handler on snapshots; its effect is stated by `Properties.BackToCategoriesEffect` |
| Machine.ResetGame | src/pages/Index.tsx:101-112 | `resetGame` on snapshots; its effect is stated by `Properties.ResetGameRestoresInitial` |
| Machine.Enabled | src/pages/Index.tsx:144-345 | which events the rendered page offers: setup inputs and Start on the setup screen (144-185); one card per catalog key on the category screen (188-211); on the quiz screen with a question on show (216), the options while the answer is hidden (252-256), Submit before the reveal and Back and Next after it (276-305); Play Again on the results screen (311, 340-345); `Properties.StepKeepsValid` and `Properties.NoQuestionNoControls` are stated over it |
| Machine.Winner | src/pages/Index.tsx:319-323 | team 1 wins exactly when its score is higher, team 2 wins exactly when its score is higher, and it is a tie exactly when the scores are equal |
| Machine.ResultsHeadline | src/pages/Index.tsx:319-323 | the heading names the team with the higher score, or says it is a tie when the scores are equal |
| Properties.WinnerSymmetric | src/pages/Index.tsx:319-323 | swapping the two scores swaps the winner and keeps a tie |
| Properties.StartGameGuard | src/pages/Index.tsx:51-57 | with both names non-blank, only the screen changes, to category choice; with either name blank, nothing changes and the outcome is "missing team name" |
| Properties.SelectCategoryEffect | src/pages/Index.tsx:59-63 | sets the category and the quiz screen and sets the index to 0 whatever it was; names, scores, turn, selection and reveal flag are unchanged |
| Properties.ChooseOptionEffect | src/pages/Index.tsx:255 | records the option while the answer is hidden; once it is shown, nothing changes |
| Properties.SubmitWithoutSelection | src/pages/Index.tsx:67-71 | with no selection, the state is unchanged and the outcome is "no answer selected" |
| Properties.SubmitScoring | src/pages/Index.tsx:73-85 | reveals the answer; the team on turn gains exactly the question's points when the selection is the correct option and nothing otherwise; the other team's score, the turn and all other cells are unchanged |
| Properties.NextQuestionEffect | src/pages/Index.tsx:88-99 | before the last question: the index goes up by 1, the selection and reveal flag are cleared, the turn passes to the other team, and nothing else changes; on the last question only the screen changes, to results |
| Properties.BackToCategoriesEffect | src/pages/Index.tsx:286-290 | the category screen with the selection and reveal flag cleared; names, scores and turn are kept |
| Properties.ResetGameRestoresInitial | src/pages/Index.tsx:101-112 | from any state, every cell gets its initial value; resetting twice is the same as resetting once |
| Properties.TurnChangesOnlyOnAdvance | src/pages/Index.tsx:95 | the turn changes only when `nextQuestion` moves to another question, or on reset |
| Properties.ScoresChangeOnlyOnCorrectAnswer | src/pages/Index.tsx:76-81 | apart from reset, a score changes only when a correct answer is submitted, and then by exactly that question's points, for the team on turn |
| Properties.NamesFixedAfterSetup | src/pages/Index.tsx:144-185 | once the game has left setup, no event the page offers other than reset changes a team name |
| Properties.NoQuestionNoControls | src/pages/Index.tsx:216 | on the quiz screen with no current question, which happens for an empty category, the page offers no event at all |
| Properties.InitialValid | src/pages/Index.tsx:29-38 | the initial values of the cells satisfy the invariant |
| Properties.StepKeepsValid | src/pages/Index.tsx:51-112 | every event the page offers keeps the invariant: on the quiz screen the index is within the category, scores are non-negative, and names are non-blank after setup |
| Properties.RunKeepsValid | src/pages/Index.tsx:51-112 | any sequence of events that the page offers keeps the invariant |
| Properties.QuestionIndexInBounds | src/pages/Index.tsx:61 | in every game played through the page from the start, the quiz screen always has its index within the selected category and a question on show |
| Properties.NextTimesAdvances | src/pages/Index.tsx:88-99 | `k` calls of `nextQuestion` that stay before the last question move the index forward by `k`, pass the turn once per call and leave the scores unchanged |
| Properties.ExactlyNCallsReachResults | src/pages/Index.tsx:88-99 | from the first question of a category of `n` questions, fewer than `n` calls leave the quiz screen at question `k`, and exactly `n` calls reach the results screen |
| Properties.PlayThroughCategory | src/pages/Index.tsx:67-99 | one round (choose, submit, next) per remaining question ends on the results screen, and each team gains exactly the points of the questions it answered correctly on its turns |
| Game.QuizBattle.constructor | src/pages/Index.tsx:29-38 | the object starts in the initial state, which satisfies the invariant |
| Game.QuizBattle.SetTeamName | src/pages/Index.tsx:160-174 | the typed value becomes that team's name; the other name is kept; an event the page offers keeps the invariant |
| Game.QuizBattle.StartGame | src/pages/Index.tsx:51-57 | the outcome is "started" exactly when both names are non-blank; then only the screen changes, and otherwise nothing changes; an event the page offers keeps the invariant |
| Game.QuizBattle.SelectCategory | src/pages/Index.tsx:59-63 | the new state is the old one with the given category, index 0 and the quiz screen; an event the page offers keeps the invariant |
| Game.QuizBattle.ChooseOption | src/pages/Index.tsx:255 | the option is recorded only while the answer is hidden; an event the page offers keeps the invariant |
| Game.QuizBattle.SubmitAnswer | src/pages/Index.tsx:67-86 | the outcome is the grading of the old state; no selection changes nothing; a wrong answer only sets the reveal flag; a correct answer also adds the points to the team on turn; an event the page offers keeps the invariant |
| Game.QuizBattle.NextQuestion | src/pages/Index.tsx:88-99 | the index advances exactly when the index plus one is below the question count, with the selection cleared and the turn passed on; otherwise only the screen changes, to results; an event the page offers keeps the invariant |
| Game.QuizBattle.BackToCategories | src/pages/Index.tsx:286-290 | the category screen, with the selection and reveal flag cleared and everything else kept; an event the page offers keeps the invariant |
| Game.QuizBattle.ResetGame | src/pages/Index.tsx:101-112 | every cell gets its initial value; an event the page offers keeps the invariant |

## Left out

- Loading the catalog (the `fetch` effect) and the loading screen: this is I/O. The catalog is a parameter, already loaded.
- Toast notifications: the handlers return outcome tags (`StartOutcome`, `SubmitOutcome`, whether `nextQuestion` advanced) instead of messages.
- Rendering, styling, animation, the score banner, the progress bar, the fixed caption on category cards, and image URLs with their fallback image: these are presentation. The only part of the page that is modelled is which controls it shows on each screen (`Enabled`).
- Points and scores are unbounded integers. JavaScript numbers are floating point, so fractional points, NaN (which `|| 0` turns into 0) and precision loss for huge totals are not modelled.
- JavaScript strings are UTF-16. A lone surrogate cannot be a Dafny `char`, so names holding one are not modelled.
- The invariant needs a well-formed catalog: every category has at least one question, and no question has negative points (`QuizData.WellFormed`). Nothing in the code checks this. For an empty category, `Properties.NoQuestionNoControls` shows the game gets stuck.
- Manual-award mode, score adjustment and clamping scores at 0 are not in this code, so they are not modelled.
