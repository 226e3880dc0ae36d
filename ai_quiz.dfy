/**
 * The AI quiz front end (AI-Quiz-App/Frontend/ai-quiz-frontend/src/components/QuizApp.jsx):
 * a setup form, a playing phase over generated questions with a per-question
 * countdown, and a results phase.
 *
 * The `useState` hooks are the fields of `QuizApp`; the countdown hook is the
 * `Timer` object it owns. After every handler React re-renders and re-runs the
 * effects in the order they are declared: `SyncEffects` runs the countdown
 * hook's effect first and the question-reset effect second (the hook's
 * dependency `onTimeUp` is a new function on every render, so its effect re-runs
 * after every render). The service call is
 * replaced by its outcome, passed in as a parameter.
 */
module AiQuiz {
  import opened Wrappers
  import Text
  import opened QuizResults
  import opened QuizTimer

  datatype AppState = Setup | Playing | Completed

  /** The choices of the setup form's two selects. */
  predicate QuestionCountOption(n: int) {
    n == 5 || n == 10 || n == 15 || n == 20
  }

  predicate TotalTimeOption(t: int) {
    t == 300 || t == 600 || t == 900 || t == 1200 || t == 1800
  }

  /** `Math.floor(totalTime / numQuestions)`, for a positive count. */
  function TimePerQuestion(totalTime: nat, numQuestions: nat): (r: nat)
    requires numQuestions >= 1
  {
    totalTime / numQuestions
  }

  /** The floor: the largest share that fits `numQuestions` times into the total. */
  lemma TimePerQuestionIsFloor(totalTime: nat, numQuestions: nat)
    requires numQuestions >= 1
    ensures TimePerQuestion(totalTime, numQuestions) * numQuestions <= totalTime
    ensures totalTime < (TimePerQuestion(totalTime, numQuestions) + 1) * numQuestions
  {
  }

  /** Every pair of setup choices gives at least 15 seconds per question. */
  lemma TimePerQuestionOfOptions(totalTime: nat, numQuestions: nat)
    requires QuestionCountOption(numQuestions) && TotalTimeOption(totalTime)
    ensures 15 <= TimePerQuestion(totalTime, numQuestions) <= 360
  {
  }

  class QuizApp {
    const timer: Timer
    var appState: AppState
    var topic: string
    var numQuestions: nat
    var totalTime: nat
    var generationError: string
    var questions: seq<Question>
    var currentQuestion: nat
    var selectedAnswer: Answer
    var userAnswers: seq<Answer>
    var timeLeft: int
    var quizStarted: bool

    function Tpq(): nat
      reads this
      requires numQuestions >= 1
    {
      TimePerQuestion(totalTime, numQuestions)
    }

    /** The state in which the countdown hook keeps an interval running. */
    predicate Armed()
      reads this
    {
      quizStarted && appState != Completed && selectedAnswer.None?
    }

    /**
     * The phases and what each one holds. While playing, the answer log has one
     * entry per question left behind. A completed quiz has one answer per
     * question, except that a generated list with no questions completes on
     * its first timeout with one answer. The hook runs an interval exactly when
     * it is armed.
     */
    ghost predicate Valid()
      reads this, timer
    {
      && timer.Valid()
      && QuestionCountOption(numQuestions) && TotalTimeOption(totalTime)
      && (quizStarted <==> appState == Playing)
      && (timer.Running() <==> Armed())
      && (forall i :: 0 <= i < |questions| ==> WellFormed(questions[i]))
      && match appState
         case Setup =>
           questions == [] && currentQuestion == 0 && selectedAnswer == None && userAnswers == [] && timeLeft == 0
         case Playing =>
           && |userAnswers| == currentQuestion
           && (currentQuestion < |questions| || (questions == [] && currentQuestion == 0))
           && 1 <= timeLeft <= Tpq()
         case Completed =>
           if questions == [] then currentQuestion == 0 && |userAnswers| == 1
           else currentQuestion == |questions| - 1 && |userAnswers| == |questions|
    }

    constructor()
      ensures appState == Setup && topic == [] && numQuestions == 5 && totalTime == 300
      ensures generationError == [] && questions == [] && currentQuestion == 0
      ensures selectedAnswer == None && userAnswers == [] && timeLeft == 0 && !quizStarted
      ensures Valid() && fresh(timer)
    {
      timer := new Timer();
      appState := Setup;
      topic := [];
      numQuestions := 5;
      totalTime := 300;
      generationError := [];
      questions := [];
      currentQuestion := 0;
      selectedAnswer := None;
      userAnswers := [];
      timeLeft := 0;
      quizStarted := false;
    }

    /**
     * The effects after a render, in declaration order: the countdown hook's
     * effect re-runs; then, while playing, a changed question or phase resets
     * the countdown. The source's reset effect also lists `timePerQuestion` among
     * its dependencies; that value changes only during setup, where the effect
     * does nothing, so the model leaves it out.
     */
    method SyncEffects(prevQuestion: nat, prevState: AppState)
      requires numQuestions >= 1
      modifies this, timer
      ensures appState == old(appState) && questions == old(questions) && currentQuestion == old(currentQuestion)
      ensures selectedAnswer == old(selectedAnswer) && userAnswers == old(userAnswers)
      ensures quizStarted == old(quizStarted) && topic == old(topic) && generationError == old(generationError)
      ensures numQuestions == old(numQuestions) && totalTime == old(totalTime)
      ensures timeLeft == if appState == Playing && (currentQuestion != prevQuestion || appState != prevState)
                          then Tpq() else old(timeLeft)
      ensures old(timer.Valid()) ==> timer.Valid() && (timer.Running() <==> Armed())
    {
      var _ := timer.RunEffect(quizStarted, appState == Completed, selectedAnswer.Some?);
      if appState == Playing && (currentQuestion != prevQuestion || appState != prevState) {
        timeLeft := Tpq();
      }
    }

    /** The topic input: only the topic changes. */
    method SetTopic(t: string)
      modifies this, timer
      ensures topic == t && appState == old(appState)
      ensures numQuestions == old(numQuestions) && totalTime == old(totalTime)
      ensures generationError == old(generationError) && questions == old(questions)
      ensures currentQuestion == old(currentQuestion) && selectedAnswer == old(selectedAnswer)
      ensures userAnswers == old(userAnswers) && timeLeft == old(timeLeft) && quizStarted == old(quizStarted)
      ensures old(Valid()) ==> Valid()
    {
      topic := t;
      // The handler has no such test and every valid state passes it. It only lets
      // the setter accept any state, since the effects need a count the select offers.
      if QuestionCountOption(numQuestions) {
        SyncEffects(currentQuestion, appState);
      }
    }

    /** The "Number of Questions" select. */
    method SetNumQuestions(n: nat)
      requires QuestionCountOption(n)
      modifies this, timer
      ensures numQuestions == n && appState == old(appState)
      ensures topic == old(topic) && totalTime == old(totalTime)
      ensures generationError == old(generationError) && questions == old(questions)
      ensures currentQuestion == old(currentQuestion) && selectedAnswer == old(selectedAnswer)
      ensures userAnswers == old(userAnswers) && quizStarted == old(quizStarted)
      ensures timeLeft == old(timeLeft)
      ensures old(Valid()) && old(appState) == Setup ==> Valid()
    {
      numQuestions := n;
      SyncEffects(currentQuestion, appState);
    }

    /** The "Total Time" select, in minutes, stored as seconds. */
    method SetTotalTime(minutes: nat)
      requires TotalTimeOption(minutes * 60)
      modifies this, timer
      ensures totalTime == minutes * 60 && appState == old(appState)
      ensures topic == old(topic) && numQuestions == old(numQuestions)
      ensures generationError == old(generationError) && questions == old(questions)
      ensures currentQuestion == old(currentQuestion) && selectedAnswer == old(selectedAnswer)
      ensures userAnswers == old(userAnswers) && quizStarted == old(quizStarted)
      ensures timeLeft == old(timeLeft)
      ensures old(Valid()) && old(appState) == Setup ==> Valid()
    {
      totalTime := minutes * 60;
      // The handler has no such test and every valid state passes it. It only lets
      // the setter accept any state, since the effects need a count the select offers.
      if QuestionCountOption(numQuestions) {
        SyncEffects(currentQuestion, appState);
      }
    }

    /**
     * `handleGenerateQuestions`, with the service's outcome as `response`. A blank
     * topic is rejected before the service is called; a success starts the quiz
     * on whatever list came back, and a failure keeps the setup with its message.
     */
    method GenerateQuestions(response: Result<seq<Question>, string>) returns (called: bool)
      requires QuestionCountOption(numQuestions)
      modifies this, timer
      ensures called <==> !Text.IsBlank(Text.JavaScript, old(topic))
      ensures numQuestions == old(numQuestions) && totalTime == old(totalTime)
      ensures !called ==> generationError == "Please enter a topic" && appState == old(appState)
                          && questions == old(questions) && timeLeft == old(timeLeft)
      ensures called && response.Success? ==>
        && questions == response.value && appState == Playing && quizStarted
        && timeLeft == Tpq() && generationError == []
      ensures called && response.Failure? ==>
        && generationError == response.error && appState == old(appState) && questions == old(questions)
        && timeLeft == old(timeLeft)
      ensures currentQuestion == old(currentQuestion) && userAnswers == old(userAnswers)
      ensures selectedAnswer == old(selectedAnswer) && topic == old(topic)
      ensures old(Valid()) && old(appState) == Setup
              && (response.Success? ==> forall i :: 0 <= i < |response.value| ==> WellFormed(response.value[i]))
              ==> Valid()
    {
      var prevQuestion, prevState := currentQuestion, appState;
      if Text.IsBlank(Text.JavaScript, topic) {
        generationError := "Please enter a topic";
        called := false;
      } else {
        called := true;
        generationError := [];
        match response {
          case Success(qs) =>
            questions := qs;
            appState := Playing;
            quizStarted := true;
            timeLeft := Tpq();
          case Failure(message) =>
            generationError := message;
        }
      }
      SyncEffects(prevQuestion, prevState);
    }

    /** `handleAnswerClick`: only the selection changes, and the countdown stops. */
    method AnswerClick(answer: Choice)
      requires QuestionCountOption(numQuestions)
      modifies this, timer
      ensures selectedAnswer == Some(answer)
      ensures appState == old(appState) && questions == old(questions) && currentQuestion == old(currentQuestion)
      ensures userAnswers == old(userAnswers) && timeLeft == old(timeLeft)
      ensures topic == old(topic) && numQuestions == old(numQuestions) && totalTime == old(totalTime)
      ensures generationError == old(generationError) && quizStarted == old(quizStarted)
      ensures old(timer.Valid()) ==> !timer.Running()
      ensures old(Valid()) && old(appState) == Playing ==> Valid()
    {
      selectedAnswer := Some(answer);
      SyncEffects(currentQuestion, appState);
    }

    /**
     * `moveToNextQuestion`: before the last question, go on with no selection
     * and a full countdown; otherwise complete the quiz and stop it.
     */
    method MoveToNextQuestion()
      requires QuestionCountOption(numQuestions)
      modifies this
      ensures userAnswers == old(userAnswers) && questions == old(questions)
      ensures numQuestions == old(numQuestions) && totalTime == old(totalTime)
      ensures topic == old(topic) && generationError == old(generationError)
      ensures old(currentQuestion) < |questions| - 1 ==>
        && currentQuestion == old(currentQuestion) + 1 && selectedAnswer == None && timeLeft == Tpq()
        && appState == old(appState) && quizStarted == old(quizStarted)
      ensures old(currentQuestion) >= |questions| - 1 ==>
        && appState == Completed && !quizStarted && currentQuestion == old(currentQuestion)
        && selectedAnswer == old(selectedAnswer) && timeLeft == old(timeLeft)
    {
      if currentQuestion < |questions| - 1 {
        currentQuestion := currentQuestion + 1;
        selectedAnswer := None;
        timeLeft := Tpq();
      } else {
        appState := Completed;
        quizStarted := false;
      }
    }

    /**
     * `handleNextClick`: record the selection and move on. Like the MERN quiz, it
     * does not check for a selection; only the view hides the button.
     */
    method NextClick()
      requires QuestionCountOption(numQuestions)
      modifies this, timer
      ensures userAnswers == old(userAnswers) + [old(selectedAnswer)] && questions == old(questions)
      ensures numQuestions == old(numQuestions) && totalTime == old(totalTime)
      ensures topic == old(topic) && generationError == old(generationError)
      ensures old(currentQuestion) < |questions| - 1 ==>
        && currentQuestion == old(currentQuestion) + 1 && selectedAnswer == None && timeLeft == Tpq()
        && appState == old(appState) && quizStarted == old(quizStarted)
      ensures old(currentQuestion) >= |questions| - 1 ==>
        && appState == Completed && !quizStarted && currentQuestion == old(currentQuestion)
        && selectedAnswer == old(selectedAnswer) && timeLeft == old(timeLeft)
      ensures old(Valid()) && old(appState) == Playing ==> Valid()
    {
      var prevQuestion, prevState := currentQuestion, appState;
      userAnswers := userAnswers + [selectedAnswer];
      MoveToNextQuestion();
      SyncEffects(prevQuestion, prevState);
    }

    /** `handleTimeUp`: record `null` and move on. */
    method TimeUp()
      requires QuestionCountOption(numQuestions)
      modifies this, timer
      ensures userAnswers == old(userAnswers) + [None] && questions == old(questions)
      ensures numQuestions == old(numQuestions) && totalTime == old(totalTime)
      ensures topic == old(topic) && generationError == old(generationError)
      ensures old(currentQuestion) < |questions| - 1 ==>
        && currentQuestion == old(currentQuestion) + 1 && selectedAnswer == None && timeLeft == Tpq()
        && appState == old(appState) && quizStarted == old(quizStarted)
      ensures old(currentQuestion) >= |questions| - 1 ==>
        && appState == Completed && !quizStarted && currentQuestion == old(currentQuestion)
        && selectedAnswer == old(selectedAnswer) && timeLeft == old(timeLeft)
      ensures old(Valid()) && old(appState) == Playing ==> Valid()
    {
      var prevQuestion, prevState := currentQuestion, appState;
      userAnswers := userAnswers + [None];
      MoveToNextQuestion();
      SyncEffects(prevQuestion, prevState);
    }

    /**
     * One second of the running interval. With no interval running nothing
     * happens; so once an option is selected no timeout can follow. Otherwise
     * the countdown drops by one, or at 1 second the question times out and the
     * countdown restarts.
     */
    method Tick() returns (timedOut: bool)
      requires QuestionCountOption(numQuestions)
      modifies this, timer
      ensures !old(timer.Running()) ==> !timedOut && unchanged(this, timer)
      ensures old(Valid()) && old(selectedAnswer).Some? ==> !timedOut && unchanged(this, timer)
      ensures questions == old(questions) && numQuestions == old(numQuestions) && totalTime == old(totalTime)
      ensures topic == old(topic) && generationError == old(generationError)
      ensures old(timer.Running()) ==> (timedOut <==> old(timeLeft) <= 1)
      ensures old(timer.Running()) && !timedOut ==>
        && timeLeft == old(timeLeft) - 1 && userAnswers == old(userAnswers)
        && currentQuestion == old(currentQuestion) && appState == old(appState)
        && selectedAnswer == old(selectedAnswer) && quizStarted == old(quizStarted)
      ensures timedOut ==>
        && userAnswers == old(userAnswers) + [None] && timeLeft == Tpq()
        && (if old(currentQuestion) < |questions| - 1
            then && currentQuestion == old(currentQuestion) + 1 && appState == old(appState)
                 && selectedAnswer == None && quizStarted == old(quizStarted)
            else && appState == Completed && !quizStarted && currentQuestion == old(currentQuestion)
                 && selectedAnswer == old(selectedAnswer))
      ensures old(Valid()) ==> Valid()
    {
      if !timer.Running() {
        return false;
      }
      var step := TickValue(timeLeft, Tpq());
      timedOut := step.timedOut;
      var prevQuestion, prevState := currentQuestion, appState;
      if timedOut {
        userAnswers := userAnswers + [None];
        MoveToNextQuestion();
      }
      timeLeft := step.value;
      SyncEffects(prevQuestion, prevState);
    }

    /**
     * `handleRestartQuiz`: back to an empty setup form; the question count and
     * the total time are kept.
     */
    method RestartQuiz()
      requires QuestionCountOption(numQuestions)
      modifies this, timer
      ensures appState == Setup && currentQuestion == 0 && selectedAnswer == None && userAnswers == []
      ensures !quizStarted && timeLeft == 0 && questions == [] && topic == [] && generationError == []
      ensures numQuestions == old(numQuestions) && totalTime == old(totalTime)
      ensures old(timer.Valid()) ==> !timer.Running()
      ensures old(Valid()) ==> Valid()
    {
      var prevQuestion, prevState := currentQuestion, appState;
      appState := Setup;
      currentQuestion := 0;
      selectedAnswer := None;
      userAnswers := [];
      quizStarted := false;
      timeLeft := 0;
      questions := [];
      topic := [];
      generationError := [];
      SyncEffects(prevQuestion, prevState);
    }

    /** `calculateScore`, with the optional chaining that lets answers run past the questions. */
    function CalculateScore(): nat
      reads this
    {
      Score(questions, userAnswers)
    }

    /**
     * What the results page receives: at least one answer per question (exactly
     * one each when there are questions), a score of at most the number of
     * questions, equal to the number of green review rows.
     */
    lemma CompletedView()
      requires Valid() && appState == Completed
      ensures |userAnswers| >= |questions|
      ensures |questions| >= 1 ==> |userAnswers| == |questions|
      ensures questions == [] ==> |userAnswers| == 1 && CalculateScore() == 0
      ensures CalculateScore() <= |questions|
      ensures CalculateScore() == GreenCount(Review(questions, userAnswers))
    {
      ScoreIgnoresExtraAnswers(questions, userAnswers);
      ScoreIsGreenRows(questions, userAnswers);
    }
  }

  /**
   * A service reply with no questions: the timer still arms, and after one full
   * countdown the quiz completes holding one answer for zero questions.
   */
  method EmptyQuizRun() returns (answers: seq<Answer>, questionCount: nat, score: nat, tier: Tier)
    ensures answers == [None] && questionCount == 0 && score == 0 && tier == KeepPracticing
  {
    var quiz := new QuizApp();
    quiz.SetTopic("Astronomy");
    assert !Text.IsSpace(Text.JavaScript, quiz.topic[0]);
    var called := quiz.GenerateQuestions(Success([]));
    assert quiz.appState == Playing && quiz.Valid();
    var ticks := 0;
    while quiz.appState == Playing
      invariant quiz.Valid() && quiz.questions == [] && quiz.appState != Setup
      invariant quiz.appState == Playing ==> quiz.userAnswers == [] && quiz.selectedAnswer == None
      invariant quiz.appState == Completed ==> quiz.userAnswers == [None]
      decreases (if quiz.appState == Playing then 1 else 0), quiz.timeLeft
    {
      var _ := quiz.Tick();
      ticks := ticks + 1;
    }
    answers := quiz.userAnswers;
    questionCount := |quiz.questions|;
    score := quiz.CalculateScore();
    tier := ScoreTier(score, questionCount);
  }
}
