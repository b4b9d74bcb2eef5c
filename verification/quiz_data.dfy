/** Values shared by the quiz session, its scoring and the result reporter:
    the questions as loaded, the answer records, the player's identity and the
    result object handed to the reporter. */
module QuizData {

  datatype Option<+T> = None | Some(value: T)

  /** One multiple-choice question as it comes from the question file. */
  datatype Question = Question(id: int, question: string, options: seq<string>, correctAnswer: int)

  /** One recorded answer. `selectedOption` is `None` where indexing the
      options would give `undefined`. */
  datatype Answer = Answer(questionId: int, selectedOption: Option<string>, selectedIndex: nat, isCorrect: bool)

  /** The player's name, e-mail and school grade, each possibly unset. */
  datatype Player = Player(name: Option<string>, email: Option<string>, grade: Option<string>)

  type Positive = n: nat | n > 0 witness 1

  /** A score percentage kept exact: `Ratio(num, den)` stands for num / den.
      `NaN` is what `(0 / 0) * 100` gives. */
  datatype Percent = NaN | Ratio(num: nat, den: Positive)

  /** The object handed to the result reporter. `earlyEnd` is `Some(reason)`
      exactly when the object carries `finAnticipado: true, razonFin: reason`. */
  datatype ResultData = ResultData(
    nombre: Option<string>,
    email: Option<string>,
    grado: Option<string>,
    correctas: nat,
    total: nat,
    porcentaje: Percent,
    nota: nat,
    respuestas: seq<Answer>,
    earlyEnd: Option<string>)

  /** A possibly unset text is truthy when it is set and not empty. */
  predicate Truthy(s: Option<string>) {
    s.Some? && s.value != ""
  }

  /** A percentage is falsy when it is `NaN` or zero. */
  predicate FalsyNumber(p: Percent) {
    p.NaN? || p.num == 0
  }

  /** `p >= bound`, false for `NaN` as every comparison with `NaN` is. */
  predicate AtLeast(p: Percent, bound: nat) {
    p.Ratio? && p.num >= bound * p.den
  }
}
