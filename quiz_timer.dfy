/**
 * The countdown hook of the AI quiz
 * (AI-Quiz-App/Frontend/ai-quiz-frontend/src/hooks/useQuizTimer.js).
 *
 * The browser's interval table is modelled by the set of interval ids that were
 * created and not yet cleared; `timerRef.current` is the last id the hook stored.
 * The one-second callback itself is the pure `TickValue`, which the quiz applies
 * once per `Tick`.
 */
module QuizTimer {
  import opened Wrappers

  /** The new countdown value and whether `onTimeUp` was called. */
  datatype TickResult = TickResult(value: int, timedOut: bool)

  /** The `setTimeLeft` updater: at 1 second or less, time out and restart the countdown. */
  function TickValue(prev: int, timePerQuestion: int): TickResult {
    if prev <= 1 then TickResult(timePerQuestion, true) else TickResult(prev - 1, false)
  }

  /** The countdown after `k` ticks from `start`. */
  function Countdown(start: int, timePerQuestion: int, k: nat): int {
    if k == 0 then start else TickValue(Countdown(start, timePerQuestion, k - 1), timePerQuestion).value
  }

  /**
   * From `start` seconds the callback calls `onTimeUp` on the `start`-th tick and
   * on no earlier one; before that it shows `start`, `start - 1`, ..., `1`.
   */
  lemma {:induction false} CountdownTimesOut(start: int, timePerQuestion: int)
    requires start >= 1
    ensures forall k :: 0 <= k < start ==> Countdown(start, timePerQuestion, k) == start - k
    ensures forall k :: 0 <= k < start - 1 ==> !TickValue(Countdown(start, timePerQuestion, k), timePerQuestion).timedOut
    ensures TickValue(Countdown(start, timePerQuestion, start - 1), timePerQuestion) == TickResult(timePerQuestion, true)
  {
    forall k | 0 <= k < start
      ensures Countdown(start, timePerQuestion, k) == start - k
    {
      CountdownStep(start, timePerQuestion, k);
    }
  }

  lemma {:induction false} CountdownStep(start: int, timePerQuestion: int, k: nat)
    requires 0 <= k < start
    ensures Countdown(start, timePerQuestion, k) == start - k
  {
    if k > 0 {
      CountdownStep(start, timePerQuestion, k - 1);
    }
  }

  /** A tick keeps the countdown within 1..timePerQuestion. */
  lemma TickStaysInRange(prev: int, timePerQuestion: int)
    requires 1 <= prev <= timePerQuestion
    ensures 1 <= TickValue(prev, timePerQuestion).value <= timePerQuestion
    ensures TickValue(prev, timePerQuestion).timedOut <==> prev == 1
  {
  }

  /** The hook's own state: its ref and the intervals the browser still runs for it. */
  class Timer {
    var timerRef: Option<nat>
    var live: set<nat>
    var nextId: nat

    /**
     * Interval ids are positive (so a stored id is truthy), and at most one
     * interval is running: the one the ref holds.
     */
    ghost predicate Valid()
      reads this
    {
      && nextId >= 1
      && (timerRef.Some? ==> 1 <= timerRef.value < nextId)
      && (live == {} || (timerRef.Some? && live == {timerRef.value}))
    }

    predicate Running()
      reads this
    {
      live != {}
    }

    constructor()
      ensures timerRef == None && live == {}
      ensures Valid()
    {
      timerRef := None;
      live := {};
      nextId := 1;
    }

    /** `if (timerRef.current) clearInterval(timerRef.current)`. */
    method ClearCurrent()
      modifies this
      ensures timerRef == old(timerRef) && nextId == old(nextId)
      ensures live == if timerRef.Some? then old(live) - {timerRef.value} else old(live)
      ensures old(Valid()) ==> Valid() && live == {}
    {
      if timerRef.Some? {
        live := live - {timerRef.value};
      }
    }

    /**
     * One run of the effect: clear the stored interval, then start a new one
     * exactly when the quiz has started, is not completed and has no selection.
     * The ref is not reset when no new interval starts.
     */
    method RunEffect(quizStarted: bool, quizCompleted: bool, selected: bool) returns (armed: bool)
      modifies this
      ensures armed <==> quizStarted && !quizCompleted && !selected
      ensures armed ==> timerRef == Some(old(nextId)) && nextId == old(nextId) + 1
      ensures !armed ==> timerRef == old(timerRef) && nextId == old(nextId)
      ensures old(Valid()) ==> Valid() && (Running() <==> armed)
    {
      ClearCurrent();
      armed := quizStarted && !quizCompleted && !selected;
      if !armed {
        return;
      }
      timerRef := Some(nextId);
      live := live + {nextId};
      nextId := nextId + 1;
    }

    /** The cleanup the effect returns, run before each re-run. */
    method Cleanup()
      modifies this
      ensures timerRef == old(timerRef)
      ensures old(Valid()) ==> Valid() && !Running()
    {
      ClearCurrent();
    }

    /** The second effect's cleanup, run when the component unmounts. */
    method Unmount()
      modifies this
      ensures timerRef == old(timerRef)
      ensures old(Valid()) ==> Valid() && !Running()
    {
      ClearCurrent();
    }
  }
}
