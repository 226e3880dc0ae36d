/**
 * The single-page quiz of MERN-Quiz-App/components/Quizapp.jsx: ten fixed
 * questions, 30 seconds per question, an answer log that grows by one entry per
 * question (the selected option, or `null` when the time runs out), and a
 * restart that goes straight back to the first question.
 *
 * The component's five `useState` hooks are the fields of `QuizApp`; each
 * handler is a method. The one-second `setInterval` is modelled as explicit
 * `Tick` calls.
 */
module MernQuiz {
  import opened Wrappers
  import opened QuizResults

  /** Seconds allowed per question. */
  const TimeLimit := 30

  /** The fixed question list of MERN-Quiz-App/data/questions.js. */
  function Questions(): (qs: seq<Question>)
    ensures |qs| == 10
    ensures forall i :: 0 <= i < |qs| ==> WellFormed(qs[i])
    ensures forall i :: 0 <= i < |qs| ==> qs[i].correct == qs[i].correct.Floor as real
  {
    [ Question("What is the capital of France?", ["London", "Berlin", "Paris", "Madrid"], 2.0),
      Question("Which planet is known as the Red Planet?", ["Venus", "Mars", "Jupiter", "Saturn"], 1.0),
      Question("What is 2 + 2?", ["3", "4", "5", "6"], 1.0),
      Question("Who painted the Mona Lisa?",
               ["Vincent van Gogh", "Pablo Picasso", "Leonardo da Vinci", "Michelangelo"], 2.0),
      Question("What is the largest ocean on Earth?", ["Atlantic", "Indian", "Arctic", "Pacific"], 3.0),
      Question("Which element has the chemical symbol 'O'?", ["Gold", "Oxygen", "Silver", "Iron"], 1.0),
      Question("In which year did World War II end?", ["1944", "1945", "1946", "1947"], 1.0),
      Question("What is the smallest country in the world?",
               ["Monaco", "Vatican City", "San Marino", "Liechtenstein"], 1.0),
      Question("Which animal is known as the King of the Jungle?", ["Tiger", "Elephant", "Lion", "Leopard"], 2.0),
      Question("What is the hardest natural substance on Earth?", ["Gold", "Iron", "Diamond", "Platinum"], 2.0) ]
  }

  // ---------------------------------------------------------------------------
  // Timer colour
  // ---------------------------------------------------------------------------

  datatype TimerClass = TimerNormal | TimerWarning | TimerCritical

  function TimerClassName(c: TimerClass): string {
    match c
    case TimerCritical => "timer-critical"
    case TimerWarning => "timer-warning"
    case TimerNormal => "timer-normal"
  }

  function Urgency(c: TimerClass): nat {
    match c
    case TimerNormal => 0
    case TimerWarning => 1
    case TimerCritical => 2
  }

  /** `getTimerClass`: at most 5 seconds left is critical, at most 10 a warning. */
  function TimerClassOf(timeLeft: int): TimerClass {
    if timeLeft <= 5 then TimerCritical
    else if timeLeft <= 10 then TimerWarning
    else TimerNormal
  }

  /** Less time left is never shown as less urgent; a fresh question starts out normal. */
  lemma TimerClassMonotone(t1: int, t2: int)
    requires t1 <= t2
    ensures Urgency(TimerClassOf(t2)) <= Urgency(TimerClassOf(t1))
    ensures TimerClassOf(TimeLimit) == TimerNormal
  {
  }

  // ---------------------------------------------------------------------------
  // The quiz component
  // ---------------------------------------------------------------------------

  class QuizApp {
    const questions: seq<Question>
    var currentQuestion: nat
    var selectedAnswer: Answer
    var userAnswers: seq<Answer>
    var quizCompleted: bool
    var timeLeft: int

    /** The state `useState` starts from, and the one `restartQuiz` returns to. */
    ghost predicate Initial()
      reads this
    {
      && currentQuestion == 0
      && selectedAnswer == None
      && userAnswers == []
      && !quizCompleted
      && timeLeft == TimeLimit
    }

    /**
     * The answer log has one entry per question already left behind; once the
     * quiz is over the index stays on the last question and the log has one entry
     * per question. The countdown always shows 1 to 30 seconds.
     */
    ghost predicate Valid()
      reads this
    {
      && |questions| >= 1
      && (forall i :: 0 <= i < |questions| ==> WellFormed(questions[i]))
      && currentQuestion < |questions|
      && (if quizCompleted then |userAnswers| == |questions| && currentQuestion == |questions| - 1
          else |userAnswers| == currentQuestion)
      && 1 <= timeLeft <= TimeLimit
    }

    /** The timer effect installs an interval only in this state. */
    predicate Armed()
      reads this
    {
      !quizCompleted && selectedAnswer.None?
    }

    constructor()
      ensures questions == Questions()
      ensures Initial() && Valid()
    {
      questions := Questions();
      currentQuestion := 0;
      selectedAnswer := None;
      userAnswers := [];
      quizCompleted := false;
      timeLeft := TimeLimit;
    }

    /** `handleAnswerClick`: only the selection changes, and the last click wins. */
    method AnswerClick(answer: Choice)
      modifies this
      ensures selectedAnswer == Some(answer)
      ensures currentQuestion == old(currentQuestion) && userAnswers == old(userAnswers)
      ensures quizCompleted == old(quizCompleted) && timeLeft == old(timeLeft)
      ensures old(Valid()) ==> Valid()
    {
      selectedAnswer := Some(answer);
    }

    /**
     * `moveToNextQuestion`: before the last question, go to the next one with no
     * selection and a full countdown; on the last question, complete the quiz.
     */
    method MoveToNextQuestion()
      modifies this
      ensures userAnswers == old(userAnswers)
      ensures old(currentQuestion) < |questions| - 1 ==>
        && currentQuestion == old(currentQuestion) + 1 && selectedAnswer == None
        && timeLeft == TimeLimit && quizCompleted == old(quizCompleted)
      ensures old(currentQuestion) >= |questions| - 1 ==>
        && quizCompleted && currentQuestion == old(currentQuestion)
        && selectedAnswer == old(selectedAnswer) && timeLeft == old(timeLeft)
    {
      if currentQuestion < |questions| - 1 {
        currentQuestion := currentQuestion + 1;
        selectedAnswer := None;
        timeLeft := TimeLimit;
      } else {
        quizCompleted := true;
      }
    }

    /**
     * `handleNextClick`: record the current selection and move on. The handler
     * does not itself check that an option is selected; only the view hides the
     * button until one is.
     */
    method NextClick()
      modifies this
      ensures userAnswers == old(userAnswers) + [old(selectedAnswer)]
      ensures old(currentQuestion) < |questions| - 1 ==>
        && currentQuestion == old(currentQuestion) + 1 && selectedAnswer == None
        && timeLeft == TimeLimit && quizCompleted == old(quizCompleted)
      ensures old(currentQuestion) >= |questions| - 1 ==>
        && quizCompleted && currentQuestion == old(currentQuestion)
        && selectedAnswer == old(selectedAnswer) && timeLeft == old(timeLeft)
      ensures old(Valid()) && !old(quizCompleted) ==> Valid()
    {
      userAnswers := userAnswers + [selectedAnswer];
      MoveToNextQuestion();
    }

    /** `handleTimeUp`: record `null` and move on. */
    method TimeUp()
      modifies this
      ensures userAnswers == old(userAnswers) + [None]
      ensures old(currentQuestion) < |questions| - 1 ==>
        && currentQuestion == old(currentQuestion) + 1 && selectedAnswer == None
        && timeLeft == TimeLimit && quizCompleted == old(quizCompleted)
      ensures old(currentQuestion) >= |questions| - 1 ==>
        && quizCompleted && currentQuestion == old(currentQuestion)
        && selectedAnswer == old(selectedAnswer) && timeLeft == old(timeLeft)
      ensures old(Valid()) && !old(quizCompleted) ==> Valid()
    {
      userAnswers := userAnswers + [None];
      MoveToNextQuestion();
    }

    /**
     * One second of the interval. Nothing happens unless the timer is armed.
     * At 1 second or less the question times out and the countdown restarts at
     * 30; otherwise it drops by one.
     */
    method Tick() returns (timedOut: bool)
      modifies this
      ensures timedOut <==> old(Armed()) && old(timeLeft) <= 1
      ensures !old(Armed()) ==> unchanged(this)
      ensures old(Armed()) && old(timeLeft) > 1 ==>
        && timeLeft == old(timeLeft) - 1 && currentQuestion == old(currentQuestion)
        && selectedAnswer == old(selectedAnswer) && userAnswers == old(userAnswers)
        && quizCompleted == old(quizCompleted)
      ensures timedOut ==>
        && userAnswers == old(userAnswers) + [None] && timeLeft == TimeLimit && selectedAnswer == None
        && (if old(currentQuestion) < |questions| - 1
            then currentQuestion == old(currentQuestion) + 1 && !quizCompleted
            else quizCompleted && currentQuestion == old(currentQuestion))
      ensures old(Valid()) ==> Valid()
    {
      timedOut := false;
      if !Armed() {
        return;
      }
      if timeLeft <= 1 {
        TimeUp();
        timeLeft := TimeLimit;
        timedOut := true;
      } else {
        timeLeft := timeLeft - 1;
      }
    }

    /** `restartQuiz`: back to the initial state, with the same questions. */
    method Restart()
      modifies this
      ensures Initial()
      ensures old(Valid()) ==> Valid()
    {
      currentQuestion := 0;
      selectedAnswer := None;
      userAnswers := [];
      quizCompleted := false;
      timeLeft := TimeLimit;
    }

    /** `calculateScore`; `questions[index].correct` throws past the end of the list. */
    function CalculateScore(): nat
      reads this
      requires |userAnswers| <= |questions|
    {
      Score(questions, userAnswers)
    }

    /** `getScoreMessage`, against the whole question list. */
    function ScoreMessage(): string
      reads this
      requires |userAnswers| <= |questions|
    {
      Message(ScoreTier(CalculateScore(), |questions|))
    }

    /**
     * What the completed view shows: a score between 0 and the number of
     * questions that equals the number of green review rows.
     */
    lemma CompletedView()
      requires Valid() && quizCompleted
      ensures CalculateScore() <= |questions|
      ensures CalculateScore() == GreenCount(Review(questions, userAnswers))
      ensures |Review(questions, userAnswers)| == |questions|
    {
      ScoreIsGreenRows(questions, userAnswers);
    }
  }

  // ---------------------------------------------------------------------------
  // Runs over the fixture
  // ---------------------------------------------------------------------------

  /** Clicking the correct option and "Next" on every question scores 10 of 10. */
  method PerfectRun() returns (score: nat, message: string)
    ensures score == 10
    ensures message == "Excellent! \U{1F389}"
  {
    var quiz := new QuizApp();
    while !quiz.quizCompleted
      invariant quiz.Valid() && quiz.questions == Questions()
      invariant forall i :: 0 <= i < |quiz.userAnswers| ==>
        quiz.userAnswers[i].Some? && IsCorrect(quiz.questions[i], quiz.userAnswers[i].value)
      decreases |quiz.questions| - |quiz.userAnswers|
    {
      quiz.AnswerClick(quiz.questions[quiz.currentQuestion].correct.Floor);
      quiz.NextClick();
    }
    AllCorrectScoresFull(quiz.questions, quiz.userAnswers);
    score := quiz.CalculateScore();
    message := quiz.ScoreMessage();
  }

  /**
   * Never answering: the countdown runs out on every question, each timeout
   * records `null`, and the quiz ends with ten empty answers and no points.
   */
  method IdleRun() returns (answers: seq<Answer>, score: nat, message: string)
    ensures |answers| == 10 && forall i :: 0 <= i < |answers| ==> answers[i] == None
    ensures score == 0
    ensures message == "Keep practicing! \U{1F4AA}"
  {
    var quiz := new QuizApp();
    while !quiz.quizCompleted
      invariant quiz.Valid() && quiz.questions == Questions()
      invariant quiz.selectedAnswer == None
      invariant forall i :: 0 <= i < |quiz.userAnswers| ==> quiz.userAnswers[i] == None
      decreases (if quiz.quizCompleted then 0 else 1), |quiz.questions| - quiz.currentQuestion, quiz.timeLeft
    {
      var _ := quiz.Tick();
    }
    TimeoutsScoreNothing(quiz.questions, quiz.userAnswers);
    answers := quiz.userAnswers;
    score := quiz.CalculateScore();
    message := quiz.ScoreMessage();
  }
}
