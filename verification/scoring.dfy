/** The pure part of the quiz page: the answer record, the count of correct
    answers, the grade band (nota) from 1 to 5, the "perfect score" test and
    the grading of a quiz ended early. */
module Scoring {
  import opened QuizData

  /** The record `saveAnswer` builds for option `selectedIndex` of `q`. */
  function AnswerFor(selectedIndex: nat, q: Question): (a: Answer)
    ensures a.isCorrect <==> selectedIndex == q.correctAnswer
    ensures a.questionId == q.id && a.selectedIndex == selectedIndex
    ensures selectedIndex < |q.options| ==> a.selectedOption == Some(q.options[selectedIndex])
    ensures selectedIndex >= |q.options| ==> a.selectedOption == None
  {
    Answer(q.id,
           if selectedIndex < |q.options| then Some(q.options[selectedIndex]) else None,
           selectedIndex,
           selectedIndex == q.correctAnswer)
  }

  /** `answers.filter(a => a.isCorrect).length` */
  function CountCorrect(answers: seq<Answer>): (n: nat)
    ensures n <= |answers|
    ensures n == |answers| <==> forall i :: 0 <= i < |answers| ==> answers[i].isCorrect
    ensures n == 0 <==> forall i :: 0 <= i < |answers| ==> !answers[i].isCorrect
  {
    if answers == [] then 0
    else
      var init := answers[..|answers| - 1];
      assert forall i :: 0 <= i < |init| ==> init[i] == answers[i];
      CountCorrect(init) + (if answers[|answers| - 1].isCorrect then 1 else 0)
  }

  /** `(correct / total) * 100` for a count of right answers out of the
      answers recorded: `NaN` exactly when nothing was recorded (`0 / 0`),
      otherwise `100 * correct / total`, never above 100. */
  function ScorePercentage(correct: nat, total: nat): (p: Percent)
    requires correct <= total
    ensures p.NaN? <==> total == 0
    ensures p.Ratio? ==> p.num * total == 100 * correct * p.den
    ensures p.Ratio? ==> p.num <= 100 * p.den
    ensures AtLeast(p, 100) <==> total > 0 && correct == total
  {
    if total == 0 then NaN else Ratio(100 * correct, total)
  }

  /** The if-chain of the grade: 90 and up gives 5, 70 gives 4, 50 gives 3,
      30 gives 2, anything else (`NaN` included) gives 1. */
  function BandOf(p: Percent): (g: nat)
    ensures 1 <= g <= 5
    ensures g == 1 <==> !AtLeast(p, 30)
    ensures g == 5 <==> AtLeast(p, 90)
  {
    if AtLeast(p, 90) then 5
    else if AtLeast(p, 70) then 4
    else if AtLeast(p, 50) then 3
    else if AtLeast(p, 30) then 2
    else 1
  }

  /** The lowest percentage that earns band `g`: an independent statement of
      the banding as a table. */
  function MinPercent(g: nat): nat
    requires 1 <= g <= 5
  {
    [0, 30, 50, 70, 90][g - 1]
  }

  /** The band is the highest one whose lowest percentage is reached; the
      boundaries are inclusive. */
  lemma BandIsHighestReached(p: Percent, g: nat)
    requires 1 <= g <= 5
    ensures BandOf(p) == g <==>
              (g == 1 || AtLeast(p, MinPercent(g))) && (g == 5 || !AtLeast(p, MinPercent(g + 1)))
  {
  }

  /** The grade of `correct` right answers out of `total`. */
  function Grade(correct: nat, total: nat): (g: nat)
    requires correct <= total
    ensures 1 <= g <= 5
    ensures total == 0 ==> g == 1
  {
    BandOf(ScorePercentage(correct, total))
  }

  /** More right answers out of the same total never lower the grade. */
  lemma GradeMonotone(c1: nat, c2: nat, total: nat)
    requires c1 <= c2 <= total
    ensures Grade(c1, total) <= Grade(c2, total)
  {
  }

  /** Boundary values: exactly 90, 70, 50, 30 reach the band, a hair below does not. */
  lemma BandBoundaries()
    ensures BandOf(Ratio(90, 1)) == 5 && BandOf(Ratio(89999, 1000)) == 4
    ensures BandOf(Ratio(70, 1)) == 4 && BandOf(Ratio(69999, 1000)) == 3
    ensures BandOf(Ratio(50, 1)) == 3 && BandOf(Ratio(49999, 1000)) == 2
    ensures BandOf(Ratio(30, 1)) == 2 && BandOf(Ratio(29999, 1000)) == 1
  {
  }

  /** With the five questions a run draws, k right answers give these grades. */
  lemma FiveQuestionGrades()
    ensures Grade(0, 5) == 1 && Grade(1, 5) == 1 && Grade(2, 5) == 2
    ensures Grade(3, 5) == 3 && Grade(4, 5) == 4 && Grade(5, 5) == 5
  {
  }

  /** The results title and button show "perfect score" when the percentage
      of the recorded answers is at least 90. */
  predicate IsPerfectScore(answers: seq<Answer>) {
    AtLeast(ScorePercentage(CountCorrect(answers), |answers|), 90)
  }

  /** The perfect-score screen is shown exactly when the grade is 5. */
  lemma PerfectIffTopBand(answers: seq<Answer>)
    ensures IsPerfectScore(answers) <==> Grade(CountCorrect(answers), |answers|) == 5
  {
  }

  /** The percentage of an early end: 0 when nothing was answered. */
  function ForcedPercentage(correct: nat, answered: nat): (p: Percent)
    requires correct <= answered
    ensures p.Ratio?
    ensures answered == 0 ==> p.num == 0
    ensures answered > 0 ==> p == ScorePercentage(correct, answered)
  {
    if answered > 0 then Ratio(100 * correct, answered) else Ratio(0, 1)
  }

  /** The grade of an early end: 1 when fewer answers than questions were
      recorded, the ordinary grade otherwise. */
  function ForcedGrade(answered: nat, correct: nat, questionCount: nat): (g: nat)
    requires correct <= answered
    ensures 1 <= g <= 5
    ensures answered < questionCount ==> g == 1
    ensures answered >= questionCount ==> g == Grade(correct, answered)
  {
    if answered < questionCount then 1
    else BandOf(ForcedPercentage(correct, answered))
  }

  /** The object the normal end of a run reports. */
  function CompletionData(answers: seq<Answer>, player: Player): (r: ResultData)
    ensures r.nombre == player.name && r.email == player.email && r.grado == player.grade
    ensures r.total == |answers| && r.respuestas == answers
    ensures r.correctas == CountCorrect(answers) && r.correctas <= r.total
    ensures r.porcentaje == ScorePercentage(r.correctas, r.total)
    ensures r.nota == Grade(r.correctas, r.total) && 1 <= r.nota <= 5
    ensures r.nota == 5 <==> IsPerfectScore(answers)
    ensures r.earlyEnd == None
  {
    PerfectIffTopBand(answers);
    var correct := CountCorrect(answers);
    ResultData(player.name, player.email, player.grade, correct, |answers|,
               ScorePercentage(correct, |answers|), Grade(correct, |answers|), answers, None)
  }

  /** The object an early end reports, with `reason` as `razonFin`. */
  function ForcedData(answers: seq<Answer>, questionCount: nat, reason: string, player: Player): (r: ResultData)
    ensures r.nombre == player.name && r.email == player.email && r.grado == player.grade
    ensures r.total == |answers| && r.respuestas == answers
    ensures r.correctas == CountCorrect(answers) && r.correctas <= r.total
    ensures r.porcentaje == ForcedPercentage(r.correctas, r.total)
    ensures r.nota == ForcedGrade(r.total, r.correctas, questionCount)
    ensures r.earlyEnd == Some(reason)
    ensures |answers| < questionCount ==> r.nota == 1
    ensures |answers| >= questionCount ==> r.nota == CompletionData(answers, player).nota
    ensures answers == [] ==> r.porcentaje.Ratio? && r.porcentaje.num == 0
  {
    var correct := CountCorrect(answers);
    ResultData(player.name, player.email, player.grade, correct, |answers|,
               ForcedPercentage(correct, |answers|), ForcedGrade(|answers|, correct, questionCount),
               answers, Some(reason))
  }

  /** Two right answers out of two, with five questions drawn, still earn only 1. */
  lemma PenaltyIgnoresAccuracy(answers: seq<Answer>, player: Player)
    requires |answers| == 2 && CountCorrect(answers) == 2
    ensures ForcedData(answers, 5, "visibilitychange", player).nota == 1
    ensures CompletionData(answers, player).nota == 5
  {
  }
}
