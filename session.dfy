/**
 * The page's global session record and the operations that update it: loading
 * the bank, starting a test, answering, moving between questions, marking,
 * the once-a-second countdown and submission.
 */
module Session {
  import opened Wrappers
  import opened Questions
  import opened TestGeneration
  import opened Scoring

  /** The countdown's starting value: sixty minutes, in seconds. */
  const TestDuration: int := 60 * 60

  /** `s` with the membership of `k` flipped (`Set.delete` when present, `Set.add` when absent). */
  function Toggled(s: set<int>, k: int): (r: set<int>)
    ensures k in r <==> k !in s
    ensures forall j :: j != k ==> (j in r <==> j in s)
  {
    if k in s then s - {k} else s + {k}
  }

  /** Toggling the same question twice restores the marked set. */
  lemma ToggleTwice(s: set<int>, k: int)
    ensures Toggled(Toggled(s, k), k) == s
  {
  }

  /** The figures of the submit confirmation: answered count, total, and the unanswered line if any. */
  datatype Prompt = Prompt(answered: nat, total: nat, unanswered: Option<int>)

  /**
   * `confirmSubmit`'s message: the number of answer entries out of the test
   * length, and a line with the number of unanswered questions when some are.
   */
  function SubmitPrompt(answers: Answers, total: nat): (p: Prompt)
    ensures p.answered == |answers.Keys| && p.total == total
    ensures p.unanswered.Some? <==> |answers.Keys| < total
    ensures p.unanswered.Some? ==> p.unanswered.value > 0 && p.answered + p.unanswered.value == total
  {
    var answeredCount := |answers.Keys|;
    Prompt(answeredCount, total,
           if answeredCount < total then Some(total - answeredCount) else None)
  }

  /**
   * When the answers are keyed by positions of the test and every question has
   * an answer label, the confirmation agrees with the score: its answered
   * count is correct plus wrong, and it reports exactly the unanswered ones.
   */
  lemma PromptMatchesScore(test: seq<Question>, answers: Answers)
    requires HasAnswerKeys(test)
    requires forall k :: k in answers ==> 0 <= k < |test|
    ensures SubmitPrompt(answers, |test|).answered
            == CorrectCount(test, answers, |test|) + WrongCount(test, answers, |test|)
    ensures SubmitPrompt(answers, |test|).unanswered.Some?
            <==> MissingCount(test, answers, |test|) > 0
    ensures SubmitPrompt(answers, |test|).unanswered.Some?
            ==> SubmitPrompt(answers, |test|).unanswered.value == MissingCount(test, answers, |test|)
  {
    AnsweredIsCorrectPlusWrong(test, answers, |test|);
    Partition(test, answers, |test|);
    assert AnsweredBelow(answers, |test|) == answers.Keys;
  }

  /** The `state` record of the page. */
  class TestSession {
    var allQuestions: seq<Question>
    var testQuestions: seq<Question>
    var currentQuestionIndex: int
    var userAnswers: Answers
    var markedQuestions: set<int>
    var startTime: Option<int>
    var endTime: Option<int>
    /** Whether the countdown interval is scheduled (`timerInterval`). */
    var timerRunning: bool
    var timeRemaining: int

    /** A position the current index may hold: within the test, or 0 when the test is empty. */
    predicate IndexOk(i: int)
      reads this
    {
      0 <= i && (i < |testQuestions| || i == 0)
    }

    /**
     * The session invariant: the current index, every answered position and
     * every marked position are valid positions; the countdown never exceeds
     * an hour and is positive while it runs.
     */
    ghost predicate Valid()
      reads this
    {
      PositionsValid() && (timerRunning ==> timeRemaining > 0)
    }

    /** Every part of the invariant except the one about the running countdown. */
    ghost predicate PositionsValid()
      reads this
    {
      && IndexOk(currentQuestionIndex)
      && (forall k :: k in userAnswers ==> IndexOk(k))
      && (forall k :: k in markedQuestions ==> IndexOk(k))
      && timeRemaining <= TestDuration
    }

    /** The initial record: no questions, no test, a full hour on a stopped clock. */
    constructor ()
      ensures Valid()
      ensures allQuestions == [] && testQuestions == [] && currentQuestionIndex == 0
      ensures userAnswers == map[] && markedQuestions == {}
      ensures startTime == None && endTime == None
      ensures !timerRunning && timeRemaining == TestDuration
    {
      allQuestions := [];
      testQuestions := [];
      currentQuestionIndex := 0;
      userAnswers := map[];
      markedQuestions := {};
      startTime := None;
      endTime := None;
      timerRunning := false;
      timeRemaining := TestDuration;
    }

    /** `init` after the bank has been fetched and parsed: store the questions. */
    method LoadQuestions(questions: seq<Question>)
      requires Valid()
      modifies this
      ensures Valid()
      ensures allQuestions == questions
      ensures testQuestions == old(testQuestions) && currentQuestionIndex == old(currentQuestionIndex)
      ensures userAnswers == old(userAnswers) && markedQuestions == old(markedQuestions)
      ensures startTime == old(startTime) && endTime == old(endTime)
      ensures timerRunning == old(timerRunning) && timeRemaining == old(timeRemaining)
    {
      allQuestions := questions;
    }

    /** `generateTest`: draw a new test from the bank and store it. */
    method GenerateTest(d3: seq<int>, d4: seq<int>, d5: seq<int>)
      requires ValidTestDraws(allQuestions, d3, d4, d5)
      modifies this`testQuestions
      ensures testQuestions == TestOf(allQuestions, d3, d4, d5)
    {
      testQuestions := DrawTest(allQuestions, d3, d4, d5);
    }

    /**
     * `startTest`: a new test, the first question, no answers, no marks, the
     * start time and a full countdown. The countdown is started only when the
     * test has a question: for an empty test, displaying question 0 fails
     * before the timer is scheduled, and the state set so far stays as it is.
     */
    method StartTest(d3: seq<int>, d4: seq<int>, d5: seq<int>, now: int)
      requires ValidTestDraws(allQuestions, d3, d4, d5)
      modifies this
      ensures Valid()
      ensures allQuestions == old(allQuestions) && endTime == old(endTime)
      ensures testQuestions == TestOf(old(allQuestions), d3, d4, d5)
      ensures currentQuestionIndex == 0 && userAnswers == map[] && markedQuestions == {}
      ensures startTime == Some(now) && timeRemaining == TestDuration
      ensures |testQuestions| > 0 ==> timerRunning
      ensures |testQuestions| == 0 ==> timerRunning == old(timerRunning)
    {
      GenerateTest(d3, d4, d5);
      ResetForNewTest(now);
      if |testQuestions| > 0 {
        timerRunning := true;
      }
    }

    /**
     * The assignments of `startTest` after the test is generated: first
     * question, fresh answers and marks, start time and a full countdown.
     */
    method ResetForNewTest(now: int)
      modifies this
      ensures Valid()
      ensures allQuestions == old(allQuestions) && testQuestions == old(testQuestions)
      ensures endTime == old(endTime) && timerRunning == old(timerRunning)
      ensures currentQuestionIndex == 0 && userAnswers == map[] && markedQuestions == {}
      ensures startTime == Some(now) && timeRemaining == TestDuration
    {
      currentQuestionIndex := 0;
      userAnswers := map[];
      markedQuestions := {};
      startTime := Some(now);
      timeRemaining := TestDuration;
    }

    /** `selectAnswer`: record `choice` for the current question, replacing any earlier one. */
    method SelectAnswer(choice: Label)
      requires Valid()
      modifies this
      ensures Valid()
      ensures userAnswers == old(userAnswers)[old(currentQuestionIndex) := choice]
      ensures allQuestions == old(allQuestions) && testQuestions == old(testQuestions)
      ensures currentQuestionIndex == old(currentQuestionIndex) && markedQuestions == old(markedQuestions)
      ensures startTime == old(startTime) && endTime == old(endTime)
      ensures timerRunning == old(timerRunning) && timeRemaining == old(timeRemaining)
    {
      userAnswers := userAnswers[currentQuestionIndex := choice];
    }

    /**
     * `navigateQuestion`: move by `direction` when the target is a question of
     * the test; otherwise stay. Nothing else changes.
     */
    method NavigateQuestion(direction: int)
      requires Valid()
      modifies this
      ensures Valid()
      ensures var target := old(currentQuestionIndex) + direction;
        currentQuestionIndex == if 0 <= target < |testQuestions| then target else old(currentQuestionIndex)
      ensures |testQuestions| > 0 ==> 0 <= currentQuestionIndex < |testQuestions|
      ensures allQuestions == old(allQuestions) && testQuestions == old(testQuestions)
      ensures userAnswers == old(userAnswers) && markedQuestions == old(markedQuestions)
      ensures startTime == old(startTime) && endTime == old(endTime)
      ensures timerRunning == old(timerRunning) && timeRemaining == old(timeRemaining)
    {
      var newIndex := currentQuestionIndex + direction;
      if newIndex >= 0 && newIndex < |testQuestions| {
        currentQuestionIndex := newIndex;
      }
    }

    /** A click on a question of the grid: jump to that question. */
    method GoToQuestion(index: int)
      requires Valid() && 0 <= index < |testQuestions|
      modifies this
      ensures Valid()
      ensures currentQuestionIndex == index
      ensures allQuestions == old(allQuestions) && testQuestions == old(testQuestions)
      ensures userAnswers == old(userAnswers) && markedQuestions == old(markedQuestions)
      ensures startTime == old(startTime) && endTime == old(endTime)
      ensures timerRunning == old(timerRunning) && timeRemaining == old(timeRemaining)
    {
      currentQuestionIndex := index;
    }

    /** `toggleMark`: flip whether the current question is marked for review. */
    method ToggleMark()
      requires Valid()
      modifies this
      ensures Valid()
      ensures markedQuestions == Toggled(old(markedQuestions), currentQuestionIndex)
      ensures allQuestions == old(allQuestions) && testQuestions == old(testQuestions)
      ensures currentQuestionIndex == old(currentQuestionIndex) && userAnswers == old(userAnswers)
      ensures startTime == old(startTime) && endTime == old(endTime)
      ensures timerRunning == old(timerRunning) && timeRemaining == old(timeRemaining)
    {
      if currentQuestionIndex in markedQuestions {
        markedQuestions := markedQuestions - {currentQuestionIndex};
      } else {
        markedQuestions := markedQuestions + {currentQuestionIndex};
      }
    }

    /**
     * `submitTest`: stop the countdown, take the end time and score the test
     * (a start time that was never set counts as 0, as `null` does in a
     * JavaScript subtraction).
     */
    method SubmitTest(now: int) returns (results: Results)
      requires PositionsValid()
      modifies this
      ensures Valid()
      ensures !timerRunning && endTime == Some(now)
      ensures Scored(results, testQuestions, userAnswers, startTime.GetOr(0), now)
      ensures allQuestions == old(allQuestions) && testQuestions == old(testQuestions)
      ensures currentQuestionIndex == old(currentQuestionIndex) && userAnswers == old(userAnswers)
      ensures markedQuestions == old(markedQuestions) && startTime == old(startTime)
      ensures timeRemaining == old(timeRemaining)
    {
      timerRunning := false;
      endTime := Some(now);
      results := CalculateResults(testQuestions, userAnswers, startTime.GetOr(0), now);
    }

    /**
     * `confirmSubmit`: show the confirmation figures and submit when the user
     * confirms; `confirmed` is the user's answer to the dialog.
     */
    method ConfirmSubmit(confirmed: bool, now: int) returns (prompt: Prompt, results: Option<Results>)
      requires Valid()
      modifies this
      ensures Valid()
      ensures prompt == SubmitPrompt(old(userAnswers), |old(testQuestions)|)
      ensures results.Some? <==> confirmed
      ensures confirmed ==> (!timerRunning && endTime == Some(now)
        && Scored(results.value, testQuestions, userAnswers, startTime.GetOr(0), now))
      ensures !confirmed ==> endTime == old(endTime) && timerRunning == old(timerRunning)
      ensures allQuestions == old(allQuestions) && testQuestions == old(testQuestions)
      ensures currentQuestionIndex == old(currentQuestionIndex) && userAnswers == old(userAnswers)
      ensures markedQuestions == old(markedQuestions) && startTime == old(startTime)
      ensures timeRemaining == old(timeRemaining)
    {
      prompt := SubmitPrompt(userAnswers, |testQuestions|);
      if confirmed {
        var r := SubmitTest(now);
        results := Some(r);
      } else {
        results := None;
      }
    }

    /**
     * One tick of the countdown: one second less, and when the time is up the
     * countdown stops and the test is submitted. Because the countdown is
     * positive while it runs, submission happens exactly when it reaches 0.
     */
    method Tick(now: int) returns (results: Option<Results>)
      requires Valid() && timerRunning
      modifies this
      ensures Valid()
      ensures timeRemaining == old(timeRemaining) - 1 && timeRemaining >= 0
      ensures results.Some? <==> timeRemaining == 0
      ensures results.Some? ==> (!timerRunning && endTime == Some(now)
        && Scored(results.value, testQuestions, userAnswers, startTime.GetOr(0), now))
      ensures results.None? ==> timerRunning && endTime == old(endTime)
      ensures allQuestions == old(allQuestions) && testQuestions == old(testQuestions)
      ensures currentQuestionIndex == old(currentQuestionIndex) && userAnswers == old(userAnswers)
      ensures markedQuestions == old(markedQuestions) && startTime == old(startTime)
    {
      timeRemaining := timeRemaining - 1;
      if timeRemaining <= 0 {
        var r := SubmitTest(now);
        results := Some(r);
      } else {
        results := None;
      }
    }
  }
}
