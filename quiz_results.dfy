/**
 * What both quiz front ends show once a quiz is over
 * (AI-Quiz-App/.../components/QuizResults.jsx and the completed view of
 * MERN-Quiz-App/components/Quizapp.jsx, which are the same code): the score,
 * the message tier that the percentage selects, and one review row per question.
 */
module QuizResults {
  import opened Wrappers

  /** Every question the quizzes display has four options. */
  const OptionCount := 4

  /** An option a player can click: the index of one of the four rendered buttons. */
  type Choice = i: int | 0 <= i < OptionCount

  /** A recorded answer: the clicked option, or `null` when the time ran out. */
  type Answer = Option<Choice>

  /**
   * A displayed question. The correct index is a JSON number: the MERN fixture
   * writes whole indices, but the AI backend's filter also passes a fractional one.
   */
  datatype Question = Question(text: string, options: seq<string>, correct: real)

  /**
   * The shape the backend's filter and the MERN fixture both guarantee: four
   * options and a correct index in `[0, 4)`, not necessarily whole.
   */
  predicate WellFormed(q: Question) {
    |q.options| == OptionCount && 0.0 <= q.correct < OptionCount as real
  }

  /** `answer === question.correct`: a clicked index equals the number. */
  predicate IsCorrect(q: Question, a: Choice) {
    a as real == q.correct
  }

  /** A question whose correct index is not whole is never answered correctly. */
  lemma FractionalNeverCorrect(q: Question)
    requires q.correct != q.correct.Floor as real
    ensures forall a: Choice :: !IsCorrect(q, a)
  {
  }

  // ---------------------------------------------------------------------------
  // Score
  // ---------------------------------------------------------------------------

  /**
   * Whether the answer recorded at position `i` scores: `questions[i]?.correct`
   * is undefined past the end of the question list, and `null` never equals a number.
   */
  predicate Hit(qs: seq<Question>, i: nat, a: Answer) {
    i < |qs| && a.Some? && IsCorrect(qs[i], a.value)
  }

  /** `calculateScore`: the left-to-right reduce adding one for each hit. */
  function Score(qs: seq<Question>, answers: seq<Answer>): (r: nat)
    ensures r <= |answers|
  {
    if answers == [] then 0
    else Score(qs, answers[..|answers| - 1]) + (if Hit(qs, |answers| - 1, answers[|answers| - 1]) then 1 else 0)
  }

  /** Recording one more answer raises the score by one exactly when that answer is a hit. */
  lemma ScoreAppend(qs: seq<Question>, answers: seq<Answer>, a: Answer)
    ensures Score(qs, answers + [a]) == Score(qs, answers) + (if Hit(qs, |answers|, a) then 1 else 0)
  {
    assert (answers + [a])[..|answers|] == answers;
  }

  /** No timed-out answer ever scores, so a run of timeouts scores nothing. */
  lemma {:induction false} TimeoutsScoreNothing(qs: seq<Question>, answers: seq<Answer>)
    requires forall i :: 0 <= i < |answers| ==> answers[i].None?
    ensures Score(qs, answers) == 0
  {
    if answers != [] {
      TimeoutsScoreNothing(qs, answers[..|answers| - 1]);
    }
  }

  /** Answers recorded beyond the last question score nothing (the optional chaining). */
  lemma {:induction false} ScoreIgnoresExtraAnswers(qs: seq<Question>, answers: seq<Answer>)
    requires |answers| >= |qs|
    ensures Score(qs, answers) == Score(qs, answers[..|qs|])
  {
    if |answers| == |qs| {
      assert answers[..|qs|] == answers;
    } else {
      var init := answers[..|answers| - 1];
      ScoreIgnoresExtraAnswers(qs, init);
      assert init[..|qs|] == answers[..|qs|];
    }
  }

  /** Answering every question correctly scores one point per question. */
  lemma {:induction false} AllCorrectScoresFull(qs: seq<Question>, answers: seq<Answer>)
    requires |answers| == |qs|
    requires forall i :: 0 <= i < |qs| ==> answers[i].Some? && IsCorrect(qs[i], answers[i].value)
    ensures Score(qs, answers) == |qs|
  {
    if answers != [] {
      AllCorrectScoresFull(qs[..|qs| - 1], answers[..|answers| - 1]);
      ScoreOnPrefix(qs, answers[..|answers| - 1]);
    }
  }

  /** The score of `answers` depends only on the questions they are matched against. */
  lemma {:induction false} ScoreOnPrefix(qs: seq<Question>, answers: seq<Answer>)
    requires |answers| < |qs|
    ensures Score(qs, answers) == Score(qs[..|qs| - 1], answers)
  {
    if answers != [] {
      ScoreOnPrefix(qs, answers[..|answers| - 1]);
    }
  }

  // ---------------------------------------------------------------------------
  // Message tiers
  // ---------------------------------------------------------------------------

  datatype Tier = KeepPracticing | NotBad | GoodJob | Excellent

  function Message(t: Tier): string {
    match t
    case Excellent => "Excellent! \U{1F389}"
    case GoodJob => "Good job! \U{1F44D}"
    case NotBad => "Not bad! \U{1F44C}"
    case KeepPracticing => "Keep practicing! \U{1F4AA}"
  }

  function Rank(t: Tier): nat {
    match t
    case KeepPracticing => 0
    case NotBad => 1
    case GoodJob => 2
    case Excellent => 3
  }

  /** The percentage the results page computes, as an exact real. */
  function Percentage(score: nat, total: nat): real
    requires total > 0
  {
    (score as real / total as real) * 100.0
  }

  /**
   * `getScoreMessage`'s comparison chain on `score / total * 100`, decided on
   * integers. With no questions the percentage is `Infinity` for a positive score
   * and `NaN` for a zero score, and every comparison with `NaN` is false.
   */
  function ScoreTier(score: nat, total: nat): Tier {
    if total == 0 then (if score > 0 then Excellent else KeepPracticing)
    else if 100 * score >= 80 * total then Excellent
    else if 100 * score >= 60 * total then GoodJob
    else if 100 * score >= 40 * total then NotBad
    else KeepPracticing
  }

  /** Comparing the real percentage with a whole threshold is the integer comparison. */
  lemma PercentageAtLeast(score: nat, total: nat, k: nat)
    requires total > 0
    ensures Percentage(score, total) >= k as real <==> 100 * score >= k * total
  {
    var t := total as real;
    var p := Percentage(score, total);
    assert p * t == 100.0 * score as real;
    if p >= k as real {
      assert p * t >= k as real * t;
    } else {
      assert p * t < k as real * t;
    }
  }

  /** The tier is the one the source's percentage thresholds 80, 60 and 40 select. */
  lemma TierByPercentage(score: nat, total: nat)
    requires total > 0
    ensures ScoreTier(score, total) ==
      if Percentage(score, total) >= 80.0 then Excellent
      else if Percentage(score, total) >= 60.0 then GoodJob
      else if Percentage(score, total) >= 40.0 then NotBad
      else KeepPracticing
  {
    PercentageAtLeast(score, total, 80);
    PercentageAtLeast(score, total, 60);
    PercentageAtLeast(score, total, 40);
  }

  /** For a fixed number of questions, a higher score never gets a lower tier. */
  lemma TierMonotone(s1: nat, s2: nat, total: nat)
    requires s1 <= s2
    ensures Rank(ScoreTier(s1, total)) <= Rank(ScoreTier(s2, total))
  {
  }

  /** The extremes: full marks is "Excellent" and a zero score is "Keep practicing". */
  lemma TierExtremes(total: nat)
    requires total > 0
    ensures ScoreTier(total, total) == Excellent
    ensures ScoreTier(0, total) == KeepPracticing
  {
  }

  // ---------------------------------------------------------------------------
  // Review rows
  // ---------------------------------------------------------------------------

  /** `String.fromCharCode(65 + i)`: "A" for the first option, "B" for the second, ... */
  function Letter(i: Choice): char {
    (65 + i) as char
  }

  /** "Your answer: ...": letter and option text, or the timeout note. */
  function AnswerText(q: Question, a: Answer): string
    requires WellFormed(q)
  {
    match a
    case None => "No answer (Time up)"
    case Some(i) => [Letter(i)] + ". " + q.options[i]
  }

  /**
   * "Correct answer: ...": the letter of the index, truncated as `fromCharCode`
   * truncates its argument, and the option's text; a fractional index names no
   * option (`undefined`, which renders as nothing).
   */
  function CorrectText(q: Question): string
    requires WellFormed(q)
  {
    var k: Choice := q.correct.Floor;
    [Letter(k)] + ". " + (if k as real == q.correct then q.options[k] else "")
  }

  /** One row of "Detailed Results". */
  datatype ReviewRow = ReviewRow(
    number: nat, question: string, yourAnswer: string, green: bool, correctAnswer: Option<string>)

  function Row(qs: seq<Question>, answers: seq<Answer>, i: nat): ReviewRow
    requires i < |qs| <= |answers|
    requires WellFormed(qs[i])
  {
    var q := qs[i];
    var hit := Hit(qs, i, answers[i]);
    ReviewRow(i + 1, q.text, AnswerText(q, answers[i]), hit, if hit then None else Some(CorrectText(q)))
  }

  /**
   * `questions.map(...)`: one row per question, in question order. Every
   * completed quiz has recorded at least one answer per question.
   */
  function Review(qs: seq<Question>, answers: seq<Answer>): (rows: seq<ReviewRow>)
    requires |answers| >= |qs|
    requires forall i :: 0 <= i < |qs| ==> WellFormed(qs[i])
    ensures |rows| == |qs|
    ensures forall i :: 0 <= i < |qs| ==> rows[i].number == i + 1 && rows[i].question == qs[i].text
    ensures forall i :: 0 <= i < |qs| ==> (rows[i].green <==> Hit(qs, i, answers[i]))
    ensures forall i :: 0 <= i < |qs| ==> (rows[i].correctAnswer.Some? <==> !rows[i].green)
  {
    seq(|qs|, i requires 0 <= i < |qs| => Row(qs, answers, i))
  }

  /** The answer text is the timeout note exactly when no option was recorded. */
  lemma AnswerTextTimeout(q: Question, a: Answer)
    requires WellFormed(q)
    ensures AnswerText(q, a) == "No answer (Time up)" <==> a.None?
  {
    if a.Some? {
      assert AnswerText(q, a)[0] != 'N';
    }
  }

  /** Number of rows shown in green. */
  function GreenCount(rows: seq<ReviewRow>): (r: nat)
    ensures r <= |rows|
  {
    if rows == [] then 0
    else GreenCount(rows[..|rows| - 1]) + (if rows[|rows| - 1].green then 1 else 0)
  }

  /** The score shown at the top equals the number of green review rows. */
  lemma ScoreIsGreenRows(qs: seq<Question>, answers: seq<Answer>)
    requires |answers| >= |qs|
    requires forall i :: 0 <= i < |qs| ==> WellFormed(qs[i])
    ensures Score(qs, answers) == GreenCount(Review(qs, answers))
  {
    ScoreIgnoresExtraAnswers(qs, answers);
    GreenPrefix(qs, answers, |qs|);
    assert Review(qs, answers)[..|qs|] == Review(qs, answers);
  }

  lemma {:induction false} GreenPrefix(qs: seq<Question>, answers: seq<Answer>, n: nat)
    requires n <= |qs| <= |answers|
    requires forall i :: 0 <= i < |qs| ==> WellFormed(qs[i])
    ensures Score(qs, answers[..n]) == GreenCount(Review(qs, answers)[..n])
  {
    if n > 0 {
      GreenPrefix(qs, answers, n - 1);
      assert answers[..n][..n - 1] == answers[..n - 1];
      assert Review(qs, answers)[..n][..n - 1] == Review(qs, answers)[..n - 1];
    }
  }
}
