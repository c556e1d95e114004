/**
 * The question catalog the game plays from (interfaces `Question`,
 * `Category` and `QuizData` of src/pages/Index.tsx) and the lookups the
 * handlers make into it. The catalog is loaded once and never changed.
 */
module QuizData {

  datatype Option<+T> = None | Some(value: T)

  /** One multiple-choice question; `image` is an optional file name. */
  datatype Question = Question(
    question: string,
    image: Option<string>,
    options: seq<string>,
    correct: string,
    points: int)

  datatype Category = Category(questions: seq<Question>)

  /** `quizData.categories`: category name to category. */
  type Catalog = map<string, Category>

  /** `quizData?.categories[selectedCategory]?.questions[currentQuestionIndex]`:
      the question at `index` of the named category, if there is one. */
  function CurrentQuestion(catalog: Catalog, category: string, index: nat): (q: Option<Question>)
    ensures q.Some? <==> category in catalog && index < |catalog[category].questions|
    ensures q.Some? ==> q.value == catalog[category].questions[index]
  {
    if category in catalog && index < |catalog[category].questions|
    then Some(catalog[category].questions[index])
    else None
  }

  /** `quizData?.categories[selectedCategory]?.questions.length || 0`:
      the number of questions of the named category, 0 for an unknown one.
      An index has a question on show exactly when it is below this count. */
  function TotalQuestions(catalog: Catalog, category: string): (n: nat)
    ensures forall i: nat :: CurrentQuestion(catalog, category, i).Some? <==> i < n
    ensures category !in catalog ==> n == 0
  {
    if category in catalog then |catalog[category].questions| else 0
  }

  /** What the game needs of a loaded catalog for its invariants: every
      category has a question, and no question is worth negative points.
      Nothing in the game checks this; it is a property of the data file. */
  predicate WellFormed(catalog: Catalog) {
    forall c :: c in catalog ==>
      |catalog[c].questions| >= 1
      && forall i :: 0 <= i < |catalog[c].questions| ==> catalog[c].questions[i].points >= 0
  }
}
