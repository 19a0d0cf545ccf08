/**
  Pure functions behind the assessment runner of the quiz studio: which questions
  still lack an answer when the quiz is submitted, how many answers are correct,
  and the rounded percentage shown on the score banner.
 */
module Assessment {
  import opened Questions

  /** A recorded answer counts only when it is present and not the empty string. */
  predicate Answered(answers: map<int, string>, id: int) {
    id in answers && answers[id] != ""
  }

  /** The recorded answer equals the correct answer by value. */
  predicate IsCorrect(answers: map<int, string>, q: Question) {
    q.id in answers && answers[q.id] == q.correctAnswer
  }

  /** The ids of the questions without an answer, in question order. */
  function MissingAnswers(qs: seq<Question>, answers: map<int, string>): (r: seq<int>)
    ensures |r| <= |qs|
    ensures forall id :: id in r ==> !Answered(answers, id)
    ensures r == [] <==> forall k :: 0 <= k < |qs| ==> Answered(answers, qs[k].id)
  {
    if qs == [] then []
    else
      var rest := MissingAnswers(qs[1..], answers);
      assert forall k :: 1 <= k < |qs| ==> qs[k] == qs[1..][k - 1];
      (if Answered(answers, qs[0].id) then [] else [qs[0].id]) + rest
  }

  /** Exactly the unanswered questions are reported. */
  lemma {:induction false} MissingAnswersMembers(qs: seq<Question>, answers: map<int, string>, id: int)
    ensures id in MissingAnswers(qs, answers) <==> HasId(qs, id) && !Answered(answers, id)
  {
    if qs != [] {
      MissingAnswersMembers(qs[1..], answers, id);
      if HasId(qs, id) && qs[0].id != id {
        var k :| 0 <= k < |qs| && qs[k].id == id;
        assert qs[1..][k - 1].id == id;
      }
      if HasId(qs[1..], id) {
        var k :| 0 <= k < |qs[1..]| && qs[1..][k].id == id;
        assert qs[k + 1].id == id;
      }
    }
  }

  /** The list is built question by question, so it follows the question order. */
  lemma {:induction false} MissingAnswersAppend(a: seq<Question>, b: seq<Question>, answers: map<int, string>)
    ensures MissingAnswers(a + b, answers) == MissingAnswers(a, answers) + MissingAnswers(b, answers)
  {
    if a == [] {
      assert a + b == b;
    } else {
      assert (a + b)[1..] == a[1..] + b;
      MissingAnswersAppend(a[1..], b, answers);
    }
  }

  function Ids(qs: seq<Question>): (r: seq<int>)
    ensures |r| == |qs| && forall k :: 0 <= k < |qs| ==> r[k] == qs[k].id
  {
    if qs == [] then [] else [qs[0].id] + Ids(qs[1..])
  }

  /** With no answers recorded (after a reset), every question is reported, in order. */
  lemma {:induction false} NothingAnsweredReportsAll(qs: seq<Question>)
    ensures MissingAnswers(qs, map[]) == Ids(qs)
  {
    if qs != [] {
      NothingAnsweredReportsAll(qs[1..]);
    }
  }

  /** Five questions with the second and fourth unanswered report exactly [2, 4]. */
  lemma MissingAnswersExample(q1: Question, q2: Question, q3: Question, q4: Question, q5: Question)
    requires q1.id == 1 && q2.id == 2 && q3.id == 3 && q4.id == 4 && q5.id == 5
    ensures MissingAnswers([q1, q2, q3, q4, q5], map[1 := "a", 3 := "b", 5 := "c"]) == [2, 4]
  {
    var ans := map[1 := "a", 3 := "b", 5 := "c"];
    var qs := [q1, q2, q3, q4, q5];
    assert qs[4..][1..] == [];
    assert MissingAnswers(qs[4..], ans) == [];
    assert qs[3..][1..] == qs[4..];
    assert MissingAnswers(qs[3..], ans) == [4];
    assert qs[2..][1..] == qs[3..];
    assert MissingAnswers(qs[2..], ans) == [4];
    assert qs[1..][1..] == qs[2..];
    assert MissingAnswers(qs[1..], ans) == [2, 4];
  }

  /** The number of questions answered correctly. */
  function CorrectCount(qs: seq<Question>, answers: map<int, string>): (c: nat)
    ensures c <= |qs|
    ensures c == |qs| <==> forall k :: 0 <= k < |qs| ==> IsCorrect(answers, qs[k])
    ensures c == 0 <==> forall k :: 0 <= k < |qs| ==> !IsCorrect(answers, qs[k])
  {
    if qs == [] then 0
    else
      var rest := CorrectCount(qs[1..], answers);
      assert forall k :: 1 <= k < |qs| ==> qs[k] == qs[1..][k - 1];
      (if IsCorrect(answers, qs[0]) then 1 else 0) + rest
  }

  /** `Math.round(correct / total * 100)`, with halves rounded up and 0 for an empty set. */
  function RoundedPercent(correct: nat, total: nat): (p: nat)
    requires correct <= total
    ensures p <= 100
    ensures total == 0 ==> p == 0
    ensures total > 0 ==> -(total as int) < 2 * (p * total - 100 * correct) <= total
  {
    if total == 0 then 0
    else
      var p := (200 * correct + total) / (2 * total);
      DivBounds(200 * correct + total, 2 * total);
      assert p * (2 * total) < 101 * (2 * total);
      MulCancel(p, 101, 2 * total);
      p
  }

  lemma DivBounds(a: nat, b: nat)
    requires b > 0
    ensures (a / b) * b <= a < (a / b + 1) * b
  {
  }

  lemma MulCancel(x: int, y: int, n: int)
    requires n > 0 && x * n < y * n
    ensures x < y
  {
  }

  /** The count adds up over concatenation, so it is the number of questions whose
      recorded answer equals the correct answer. */
  lemma {:induction false} CorrectCountAppend(a: seq<Question>, b: seq<Question>, answers: map<int, string>)
    ensures CorrectCount(a + b, answers) == CorrectCount(a, answers) + CorrectCount(b, answers)
  {
    if a == [] {
      assert a + b == b;
    } else {
      assert (a + b)[1..] == a[1..] + b;
      CorrectCountAppend(a[1..], b, answers);
    }
  }

  /** A single question counts 1 exactly when its answer is correct. */
  lemma CorrectCountSingle(q: Question, answers: map<int, string>)
    ensures CorrectCount([q], answers) == if IsCorrect(answers, q) then 1 else 0
  {
    assert [q][1..] == [];
  }

  /** The percentage shown on the score banner: the nearest integer to the share of
      correct answers, halves rounded up. */
  function Score(qs: seq<Question>, answers: map<int, string>): (p: nat)
    ensures p <= 100
    ensures qs == [] ==> p == 0
    ensures qs != [] ==>
      -|qs| < 2 * (p * |qs| - 100 * CorrectCount(qs, answers)) <= |qs|
  {
    RoundedPercent(CorrectCount(qs, answers), |qs|)
  }

  /** Four correctly answered questions and one wrongly answered score 80. */
  lemma ScoreFourOfFive(q1: Question, q2: Question, q3: Question, q4: Question, q5: Question, answers: map<int, string>)
    requires IsCorrect(answers, q1) && IsCorrect(answers, q2) && IsCorrect(answers, q3)
    requires !IsCorrect(answers, q4) && IsCorrect(answers, q5)
    ensures CorrectCount([q1, q2, q3, q4, q5], answers) == 4
    ensures Score([q1, q2, q3, q4, q5], answers) == 80
  {
    CorrectCountSingle(q1, answers);
    CorrectCountSingle(q2, answers);
    CorrectCountSingle(q3, answers);
    CorrectCountSingle(q4, answers);
    CorrectCountSingle(q5, answers);
    CorrectCountAppend([q1], [q2], answers);
    CorrectCountAppend([q1, q2], [q3], answers);
    CorrectCountAppend([q1, q2, q3], [q4], answers);
    CorrectCountAppend([q1, q2, q3, q4], [q5], answers);
    assert [q1] + [q2] == [q1, q2];
    assert [q1, q2] + [q3] == [q1, q2, q3];
    assert [q1, q2, q3] + [q4] == [q1, q2, q3, q4];
    assert [q1, q2, q3, q4] + [q5] == [q1, q2, q3, q4, q5];
  }

  /** Five correctly answered questions score 100. */
  lemma ScoreAllCorrect(qs: seq<Question>, answers: map<int, string>)
    requires |qs| == 5 && forall k :: 0 <= k < |qs| ==> IsCorrect(answers, qs[k])
    ensures Score(qs, answers) == 100
  {
  }

  /** Rounding reaches 100 only for a perfect attempt while there are fewer than 200
      questions; from 200 questions on, one wrong answer still rounds to 100. */
  lemma PerfectScoreIff(correct: nat, total: nat)
    requires correct <= total && 0 < total < 200
    ensures RoundedPercent(correct, total) == 100 <==> correct == total
  {
    var p := RoundedPercent(correct, total);
    var n2 := 2 * total;
    DivBounds(200 * correct + total, n2);
    if correct < total {
      assert p * n2 < 100 * n2;
      MulCancel(p, 100, n2);
    } else {
      assert 100 * n2 < (p + 1) * n2;
      MulCancel(100, p + 1, n2);
    }
  }

  /** With 200 questions and one wrong answer, 99.5 rounds up to 100. */
  lemma OneWrongOfTwoHundredRoundsToFull()
    ensures RoundedPercent(199, 200) == 100
  {
  }
}
