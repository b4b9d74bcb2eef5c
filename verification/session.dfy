/** The quiz page's session: the questions drawn for the run, the answers
    recorded so far, the cursor on the current question, the question modal
    whose option buttons are live, the results modal, and the result objects
    handed to the reporter. */
module Session {
  import opened QuizData
  import Scoring

  /** What `showNextQuestion` does: open the modal on a question, or hand
      control straight back to the game. */
  datatype Step = ShowQuestion(q: Question) | RunCallback

  /** The title the results modal carries. */
  datatype Title = NoTitle | PerfectScore | Evaluation | EarlyEnd

  class Quiz {
    var questions: seq<Question>
    var answers: seq<Answer>
    var currentQuestionIndex: nat
    /** `window.questionsCompleted` */
    var questionsCompleted: bool
    /** The question whose option buttons are on screen, if any. */
    var showing: Option<Question>
    /** The results modal is displayed. */
    var resultsShown: bool
    var resultsTitle: Title
    /** An early end installed a close handler that resets the answers. */
    var resetOnClose: bool
    /** Every object handed to the reporter, oldest first. */
    var reports: seq<ResultData>

    /** One answer per step of the cursor; the cursor stays on a question or
        is back at the start; a live modal shows one of the run's questions. */
    ghost predicate Valid()
      reads this
    {
      && |answers| == currentQuestionIndex
      && (currentQuestionIndex < |questions| || currentQuestionIndex == 0)
      && (showing.Some? ==> showing.value in questions)
    }

    /** The session once the drawn questions have been handed to the page. */
    constructor (drawn: seq<Question>)
      ensures Valid()
      ensures questions == drawn && answers == [] && currentQuestionIndex == 0
      ensures !questionsCompleted && showing == None && !resultsShown && resultsTitle == NoTitle
      ensures !resetOnClose && reports == []
    {
      questions := drawn;
      answers := [];
      currentQuestionIndex := 0;
      questionsCompleted := false;
      showing := None;
      resultsShown := false;
      resultsTitle := NoTitle;
      resetOnClose := false;
      reports := [];
    }

    /** `resetAnswers`: back to the first question with nothing recorded. */
    method ResetAnswers()
      modifies this`currentQuestionIndex, this`answers
      ensures currentQuestionIndex == 0 && answers == []
    {
      currentQuestionIndex := 0;
      answers := [];
    }

    /** `showNextQuestion`: show the question under the cursor while there is
        one, otherwise run the game's callback without touching the session. */
    method ShowNextQuestion() returns (step: Step)
      requires Valid()
      modifies this`showing
      ensures Valid()
      ensures old(currentQuestionIndex) < |questions| ==>
                step == ShowQuestion(questions[currentQuestionIndex]) && showing == Some(step.q)
      ensures old(currentQuestionIndex) >= |questions| ==>
                step == RunCallback && showing == old(showing)
    {
      if currentQuestionIndex < |questions| {
        var selected := questions[currentQuestionIndex];
        showing := Some(selected);
        step := ShowQuestion(selected);
      } else {
        step := RunCallback;
      }
    }

    /** `saveAnswer`: append the record of option `selectedIndex` of `q`. */
    method SaveAnswer(selectedIndex: nat, q: Question)
      modifies this`answers
      ensures answers == old(answers) + [Scoring.AnswerFor(selectedIndex, q)]
    {
      answers := answers + [Scoring.AnswerFor(selectedIndex, q)];
    }

    /** `getRecommendations`: hand the scored run to the reporter. */
    method GetRecommendations(player: Player)
      modifies this`reports
      ensures reports == old(reports) + [Scoring.CompletionData(answers, player)]
    {
      reports := reports + [Scoring.CompletionData(answers, player)];
    }

    /** `showRecommendationsModal`: display the results, titled "perfect
        score" when the recorded answers reach 90 percent. */
    method ShowRecommendationsModal()
      modifies this`resultsShown, this`resultsTitle
      ensures resultsShown
      ensures resultsTitle == if Scoring.IsPerfectScore(answers) then PerfectScore else Evaluation
    {
      resultsShown := true;
      resultsTitle := if Scoring.IsPerfectScore(answers) then PerfectScore else Evaluation;
    }

    /** A click on option `index` of the question on screen: record the
        answer, then step the cursor; after the last question, mark the run
        completed, report it, show the results and reset the answers. */
    method ClickOption(index: nat, player: Player) returns (wasLastQuestion: bool)
      requires Valid()
      requires showing.Some? && index < |showing.value.options|
      modifies this
      ensures Valid()
      ensures questions == old(questions) && showing == None && resetOnClose == old(resetOnClose)
      ensures wasLastQuestion <==> old(currentQuestionIndex) + 1 >= |questions|
      ensures var run := old(answers) + [Scoring.AnswerFor(index, old(showing).value)];
              if wasLastQuestion then
                && |run| == |questions|
                && answers == [] && currentQuestionIndex == 0
                && questionsCompleted && resultsShown
                && resultsTitle == (if Scoring.IsPerfectScore(run) then PerfectScore else Evaluation)
                && reports == old(reports) + [Scoring.CompletionData(run, player)]
              else
                && answers == run && currentQuestionIndex == old(currentQuestionIndex) + 1
                && questionsCompleted == old(questionsCompleted)
                && resultsShown == old(resultsShown) && resultsTitle == old(resultsTitle)
                && reports == old(reports)
    {
      var selectedQuestion := showing.value;
      SaveAnswer(index, selectedQuestion);
      currentQuestionIndex := currentQuestionIndex + 1;
      wasLastQuestion := currentQuestionIndex >= |questions|;
      showing := None;
      if wasLastQuestion {
        questionsCompleted := true;
        GetRecommendations(player);
        ShowRecommendationsModal();
        ResetAnswers();
      }
    }

    /** `forceEndQuiz`: unless the results are already displayed, report the
        answers so far with the early-end grade and show the early-end screen,
        whose close button will reset the answers. */
    method ForceEndQuiz(player: Player, reason: string := "manual") returns (ended: bool)
      requires Valid()
      modifies this
      ensures Valid()
      ensures ended <==> !old(resultsShown)
      ensures !ended ==> unchanged(this)
      ensures ended ==>
                && reports == old(reports) + [Scoring.ForcedData(answers, |questions|, reason, player)]
                && resultsShown && resultsTitle == EarlyEnd && resetOnClose
      ensures questions == old(questions) && answers == old(answers)
      ensures currentQuestionIndex == old(currentQuestionIndex) && showing == old(showing)
      ensures questionsCompleted == old(questionsCompleted)
    {
      if resultsShown {
        return false;
      }
      reports := reports + [Scoring.ForcedData(answers, |questions|, reason, player)];
      resultsShown := true;
      resultsTitle := EarlyEnd;
      resetOnClose := true;
      ended := true;
    }

    /** The close button of the results modal: hide it, and reset the answers
        if an early end installed that handler. */
    method CloseResults()
      requires Valid() && resultsShown
      modifies this
      ensures Valid()
      ensures !resultsShown
      ensures old(resetOnClose) ==> answers == [] && currentQuestionIndex == 0
      ensures !old(resetOnClose) ==> answers == old(answers) && currentQuestionIndex == old(currentQuestionIndex)
      ensures questions == old(questions) && showing == old(showing) && reports == old(reports)
      ensures resetOnClose == old(resetOnClose) && questionsCompleted == old(questionsCompleted)
      ensures resultsTitle == old(resultsTitle)
    {
      resultsShown := false;
      if resetOnClose {
        ResetAnswers();
      }
    }
  }

  /** Answers the first four questions of a fresh five-question run right. */
  method AnswerFourRight(quiz: Quiz, player: Player)
    requires quiz.Valid() && |quiz.questions| == 5 && quiz.answers == []
    requires quiz.reports == [] && !quiz.resultsShown
    requires forall i :: 0 <= i < 5 ==> 0 <= quiz.questions[i].correctAnswer < |quiz.questions[i].options|
    modifies quiz
    ensures quiz.Valid() && quiz.questions == old(quiz.questions)
    ensures quiz.reports == [] && !quiz.resultsShown
    ensures quiz.currentQuestionIndex == 4 && Scoring.CountCorrect(quiz.answers) == 4
  {
    var k := 0;
    while k < 4
      invariant 0 <= k <= 4
      invariant quiz.Valid() && quiz.questions == old(quiz.questions) && quiz.reports == [] && !quiz.resultsShown
      invariant quiz.currentQuestionIndex == k && Scoring.CountCorrect(quiz.answers) == k
    {
      var step := quiz.ShowNextQuestion();
      var last := quiz.ClickOption(quiz.questions[k].correctAnswer, player);
      k := k + 1;
    }
  }

  /** A run of five questions answered four right and one wrong ends with one
      report of grade 4, and an early end afterwards changes nothing. */
  method FourOfFiveScenario(qs: seq<Question>, player: Player)
    returns (report: ResultData, reportCount: nat, endedAfter: bool)
    requires |qs| == 5
    requires forall i :: 0 <= i < 5 ==> 0 <= qs[i].correctAnswer < 4 && |qs[i].options| == 4
    ensures report.correctas == 4 && report.total == 5 && report.nota == 4
    ensures report.porcentaje == Ratio(400, 5) && report.earlyEnd == None
    ensures reportCount == 1 && !endedAfter
  {
    var quiz := new Quiz(qs);
    AnswerFourRight(quiz, player);
    var step := quiz.ShowNextQuestion();
    var wrong: nat := (qs[4].correctAnswer + 1) % 4;
    ghost var before := quiz.answers;
    var last := quiz.ClickOption(wrong, player);
    FourOfFiveReport(before, Scoring.AnswerFor(wrong, qs[4]), player);
    endedAfter := quiz.ForceEndQuiz(player, "blur");
    reportCount := |quiz.reports|;
    report := quiz.reports[0];
  }

  /** Four right answers followed by a wrong one report 4 of 5 and grade 4. */
  lemma FourOfFiveReport(before: seq<Answer>, last: Answer, player: Player)
    requires |before| == 4 && Scoring.CountCorrect(before) == 4 && !last.isCorrect
    ensures var r := Scoring.CompletionData(before + [last], player);
            r.correctas == 4 && r.total == 5 && r.nota == 4
            && r.porcentaje == Ratio(400, 5) && r.earlyEnd == None
  {
    assert (before + [last])[..4] == before;
  }
}
