/**
 * Scoring a submitted test: a single pass over the questions that counts
 * correct and wrong answers and adds up the points of the correct ones,
 * followed by the derived figures shown on the results screen.
 */
module Scoring {
  import opened Wrappers
  import opened Questions
  import opened TimeFormat

  /** The answers given so far, keyed by position in the test; a missing key is an unanswered question. */
  type Answers = map<int, Label>

  /** `userAnswers[i]`: the answer at position i, or `undefined`. */
  function AnswerAt(answers: Answers, i: int): Option<Label>
  {
    if i in answers then Some(answers[i]) else None
  }

  /** The maximum score the results screen shows: 8·3 + 8·4 + 8·5. */
  const MaxScore: int := 96

  /** Position i is scored correct: the user answer is identical to the question's answer. */
  predicate CorrectAt(test: seq<Question>, answers: Answers, i: int)
    requires 0 <= i < |test|
  {
    AnswerAt(answers, i) == test[i].answer
  }

  /** Position i is scored wrong: it is not correct but some answer was given. */
  predicate WrongAt(test: seq<Question>, answers: Answers, i: int)
    requires 0 <= i < |test|
  {
    !CorrectAt(test, answers, i) && i in answers
  }

  /** Position i is left unanswered: no answer was given and it is not scored correct. */
  predicate MissingAt(test: seq<Question>, answers: Answers, i: int)
    requires 0 <= i < |test|
  {
    !CorrectAt(test, answers, i) && i !in answers
  }

  /** Number of correct positions among the first n. */
  function CorrectCount(test: seq<Question>, answers: Answers, n: nat): nat
    requires n <= |test|
  {
    if n == 0 then 0
    else CorrectCount(test, answers, n - 1) + (if CorrectAt(test, answers, n - 1) then 1 else 0)
  }

  /** Number of wrong positions among the first n. */
  function WrongCount(test: seq<Question>, answers: Answers, n: nat): nat
    requires n <= |test|
  {
    if n == 0 then 0
    else WrongCount(test, answers, n - 1) + (if WrongAt(test, answers, n - 1) then 1 else 0)
  }

  /** Number of unanswered positions among the first n. */
  function MissingCount(test: seq<Question>, answers: Answers, n: nat): nat
    requires n <= |test|
  {
    if n == 0 then 0
    else MissingCount(test, answers, n - 1) + (if MissingAt(test, answers, n - 1) then 1 else 0)
  }

  /** Sum of the points of the correct positions among the first n. */
  function ScoreOf(test: seq<Question>, answers: Answers, n: nat): int
    requires n <= |test|
  {
    if n == 0 then 0
    else ScoreOf(test, answers, n - 1) + (if CorrectAt(test, answers, n - 1) then test[n - 1].points else 0)
  }

  /** Every position is exactly one of correct, wrong and unanswered. */
  lemma {:induction false} Partition(test: seq<Question>, answers: Answers, n: nat)
    requires n <= |test|
    ensures CorrectCount(test, answers, n) + WrongCount(test, answers, n) + MissingCount(test, answers, n) == n
  {
    if n > 0 {
      Partition(test, answers, n - 1);
    }
  }

  /** With non-negative points, the score lies between 0 and the points of the whole prefix. */
  lemma {:induction false} ScoreBounds(test: seq<Question>, answers: Answers, n: nat)
    requires n <= |test|
    requires forall i :: 0 <= i < |test| ==> test[i].points >= 0
    ensures 0 <= ScoreOf(test, answers, n) <= TotalPoints(test[..n])
  {
    if n > 0 {
      ScoreBounds(test, answers, n - 1);
      assert test[..n] == test[..n - 1] + [test[n - 1]];
      TotalPointsAppend(test[..n - 1], [test[n - 1]]);
      assert TotalPoints([test[n - 1]]) == test[n - 1].points by {
        assert [test[n - 1]][1..] == [];
      }
    }
  }

  /** Every question of the test carries a correct-answer label. */
  predicate HasAnswerKeys(test: seq<Question>)
  {
    forall i :: 0 <= i < |test| ==> test[i].answer.Some?
  }

  /**
   * With no answers given, nothing is correct or wrong and everything is
   * unanswered, provided every question has an answer label (a question
   * without one matches an unanswered position, `undefined === undefined`).
   */
  lemma {:induction false} NoAnswersScoresNothing(test: seq<Question>, n: nat)
    requires n <= |test| && HasAnswerKeys(test)
    ensures CorrectCount(test, map[], n) == 0 && WrongCount(test, map[], n) == 0
    ensures MissingCount(test, map[], n) == n && ScoreOf(test, map[], n) == 0
  {
    if n > 0 {
      NoAnswersScoresNothing(test, n - 1);
    }
  }

  /** The positions below n that have an answer. */
  function AnsweredBelow(answers: Answers, n: nat): set<int>
  {
    set i | 0 <= i < n && i in answers
  }

  /**
   * When every question has an answer label, the correct and wrong positions
   * are exactly the answered ones, so the count in the submit confirmation
   * equals correct plus wrong.
   */
  lemma {:induction false} AnsweredIsCorrectPlusWrong(test: seq<Question>, answers: Answers, n: nat)
    requires n <= |test| && HasAnswerKeys(test)
    ensures CorrectCount(test, answers, n) + WrongCount(test, answers, n) == |AnsweredBelow(answers, n)|
  {
    if n > 0 {
      AnsweredIsCorrectPlusWrong(test, answers, n - 1);
      var below := AnsweredBelow(answers, n - 1);
      if n - 1 in answers {
        assert AnsweredBelow(answers, n) == below + {n - 1};
      } else {
        assert AnsweredBelow(answers, n) == below;
      }
    }
  }

  /**
   * The accuracy percentage: `Math.round(correct / n * 100)` computed exactly,
   * with halves rounded up, and 0 for an empty test.
   */
  function Accuracy(correct: int, n: int): (a: int)
    ensures n <= 0 ==> a == 0
    ensures n > 0 ==> 2 * n * a - n <= 200 * correct < 2 * n * a + n
  {
    if n > 0 then FloorDiv(200 * correct + n, 2 * n) else 0
  }

  lemma MulMonotone(k: int, a: int, b: int)
    requires k >= 0 && a <= b
    ensures k * a <= k * b
  {
    assert k * b - k * a == k * (b - a);
  }

  /** For a non-empty test the accuracy is a percentage. */
  lemma AccuracyRange(correct: int, n: int)
    requires 0 <= correct <= n
    ensures 0 <= Accuracy(correct, n) <= 100
  {
    if n > 0 {
      var a := Accuracy(correct, n);
      if a > 100 {
        MulMonotone(2 * n, 101, a);
        assert false;
      }
      if a < 0 {
        MulMonotone(2 * n, a, -1);
        assert false;
      }
    }
  }

  /** What `calculateResults` returns. */
  datatype Results = Results(
    correctCount: int,
    wrongCount: int,
    unanswered: int,
    totalScore: int,
    maxScore: int,
    accuracy: int,
    timeTaken: string)

  /**
   * `r` is the result of scoring `test` against `answers` between the two
   * millisecond timestamps: each count and the score are those of the whole
   * test, the maximum is the fixed 96, the accuracy is the rounded percentage
   * of correct answers and the time is the elapsed whole seconds as `m:ss`.
   */
  predicate Scored(r: Results, test: seq<Question>, answers: Answers, startTime: int, endTime: int)
  {
    && r.correctCount == CorrectCount(test, answers, |test|)
    && r.wrongCount == WrongCount(test, answers, |test|)
    && r.unanswered == MissingCount(test, answers, |test|)
    && r.totalScore == ScoreOf(test, answers, |test|)
    && r.maxScore == MaxScore
    && r.accuracy == Accuracy(r.correctCount, |test|)
    && r.timeTaken == MinSec(ElapsedSeconds(startTime, endTime))
  }

  /**
   * `calculateResults`: one pass over the test accumulating the counts and the
   * score, then the unanswered count, the accuracy and the elapsed time
   * between the two millisecond timestamps.
   */
  method CalculateResults(test: seq<Question>, answers: Answers, startTime: int, endTime: int)
    returns (r: Results)
    ensures Scored(r, test, answers, startTime, endTime)
    ensures r.correctCount + r.wrongCount + r.unanswered == |test|
    ensures 0 <= r.accuracy <= 100
  {
    var correctCount, wrongCount, totalScore := 0, 0, 0;
    var index := 0;
    while index < |test|
      invariant 0 <= index <= |test|
      invariant correctCount == CorrectCount(test, answers, index)
      invariant wrongCount == WrongCount(test, answers, index)
      invariant totalScore == ScoreOf(test, answers, index)
    {
      var userAnswer := AnswerAt(answers, index);
      var correctAnswer := test[index].answer;
      if userAnswer == correctAnswer {
        correctCount := correctCount + 1;
        totalScore := totalScore + test[index].points;
      } else if userAnswer.Some? {
        wrongCount := wrongCount + 1;
      }
      index := index + 1;
    }
    var unanswered := |test| - correctCount - wrongCount;
    Partition(test, answers, |test|);
    AccuracyRange(correctCount, |test|);
    var accuracy := Accuracy(correctCount, |test|);
    var timeTaken := ElapsedSeconds(startTime, endTime);
    r := Results(correctCount, wrongCount, unanswered, totalScore, MaxScore, accuracy, MinSec(timeTaken));
  }

  /**
   * The review screen agrees with the score on every position whose answer,
   * if any, is a non-empty label: "correct", "wrong" and "not answered" are
   * exactly the scored classes.
   */
  lemma ReviewAgreesWithScore(test: seq<Question>, answers: Answers, i: int)
    requires 0 <= i < |test|
    requires i in answers ==> answers[i] != ""
    ensures Classify(AnswerAt(answers, i), test[i].answer) == Correct <==> CorrectAt(test, answers, i)
    ensures Classify(AnswerAt(answers, i), test[i].answer) == Wrong <==> WrongAt(test, answers, i)
    ensures Classify(AnswerAt(answers, i), test[i].answer) == NotAnswered <==> MissingAt(test, answers, i)
  {
  }
}
