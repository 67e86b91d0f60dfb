/** Validation and aggregation of one inspection submission: every question is
    checked against its `q_<id>` form field in ascending id order, the scores and
    the maxima are summed, and the stored percentage is derived from the two sums. */
module Scoring {
  import opened Records

  /** The check applied to one question's form field: the field must be present,
      parse as an integer, and lie in `[0, q.maxScore]`; `None` means it passed. */
  function Verdict(q: Question, field: Field): (r: Option<Failure>)
    ensures r.None? <==> field.Int? && 0 <= field.value <= q.maxScore
    ensures r == Some(MissingScores) <==> field.Missing?
    ensures r == Some(InvalidScore) <==> field.NotAnInt?
    ensures r == Some(ScoreOutOfRange) <==> field.Int? && !(0 <= field.value <= q.maxScore)
  {
    match field
    case Missing => Some(MissingScores)
    case NotAnInt => Some(InvalidScore)
    case Int(n) => if 0 <= n <= q.maxScore then None else Some(ScoreOutOfRange)
  }

  /** Every question's field passes its check. */
  predicate AllAccepted(qs: seq<Question>, scoreField: nat -> Field) {
    forall i :: 0 <= i < |qs| ==> Verdict(qs[i], scoreField(qs[i].id)).None?
  }

  /** Question `k` is the first whose field fails, and it fails for `why`. */
  predicate FirstRejected(qs: seq<Question>, scoreField: nat -> Field, k: int, why: Failure) {
    0 <= k < |qs|
    && (forall i :: 0 <= i < k ==> Verdict(qs[i], scoreField(qs[i].id)).None?)
    && Verdict(qs[k], scoreField(qs[k].id)) == Some(why)
  }

  /** Answer `k` belongs to question `k` and its score lies in that question's
      range; there is no answer without a question. */
  predicate AnswersMatch(qs: seq<Question>, answers: seq<Answer>) {
    |answers| <= |qs|
    && forall k :: 0 <= k < |answers| ==>
         answers[k].questionId == qs[k].id && 0 <= answers[k].score <= qs[k].maxScore
  }

  /** The answers are exactly the submitted scores, one per question, in order. */
  predicate AnswersSubmitted(qs: seq<Question>, scoreField: nat -> Field, answers: seq<Answer>) {
    |answers| == |qs|
    && forall k :: 0 <= k < |qs| ==>
         answers[k].questionId == qs[k].id && scoreField(qs[k].id) == Int(answers[k].score)
  }

  /** Sum of the answers' scores. */
  function SumScores(answers: seq<Answer>): (r: int)
    ensures (forall k :: 0 <= k < |answers| ==> answers[k].score >= 0) ==> r >= 0
    ensures |answers| == 1 ==> r == answers[0].score
  {
    if answers == [] then 0
    else SumScores(answers[..|answers| - 1]) + answers[|answers| - 1].score
  }

  /** Sum of the questions' maximum scores. */
  function SumMaxScores(qs: seq<Question>): (r: int)
    ensures (forall k :: 0 <= k < |qs| ==> qs[k].maxScore >= 0) ==> r >= 0
    ensures |qs| == 1 ==> r == qs[0].maxScore
  {
    if qs == [] then 0
    else SumMaxScores(qs[..|qs| - 1]) + qs[|qs| - 1].maxScore
  }

  datatype Tally = Tally(answers: seq<Answer>, total: int, maxTotal: int)

  datatype Checked = Accepted(tally: Tally) | Rejected(why: Failure)

  /** The loop of the submission handler over the question table (already in
      ascending id order). It stops at the first question whose field fails;
      otherwise it returns one answer per question and the two running sums. */
  method TallyAnswers(questions: seq<Question>, scoreField: nat -> Field) returns (c: Checked)
    ensures c.Accepted? <==> AllAccepted(questions, scoreField)
    ensures c.Rejected? ==> exists k :: FirstRejected(questions, scoreField, k, c.why)
    ensures c.Accepted? ==>
      AnswersSubmitted(questions, scoreField, c.tally.answers)
      && AnswersMatch(questions, c.tally.answers)
    ensures c.Accepted? ==>
      c.tally.total == SumScores(c.tally.answers)
      && c.tally.maxTotal == SumMaxScores(questions)
      && 0 <= c.tally.total <= c.tally.maxTotal
  {
    var total, maxTotal := 0, 0;
    var answers: seq<Answer> := [];
    var i := 0;
    while i < |questions|
      invariant 0 <= i <= |questions|
      invariant AllAccepted(questions[..i], scoreField)
      invariant AnswersSubmitted(questions[..i], scoreField, answers)
      invariant AnswersMatch(questions[..i], answers)
      invariant total == SumScores(answers)
      invariant maxTotal == SumMaxScores(questions[..i])
      invariant 0 <= total <= maxTotal
    {
      var q := questions[i];
      var failure := Verdict(q, scoreField(q.id));
      if failure.Some? {
        assert FirstRejected(questions, scoreField, i, failure.value);
        return Rejected(failure.value);
      }
      var score := scoreField(q.id).value;
      assert questions[..i + 1][..i] == questions[..i];
      answers := answers + [Answer(q.id, score)];
      assert answers[..|answers| - 1] == answers[..i];
      total := total + score;
      maxTotal := maxTotal + q.maxScore;
      i := i + 1;
    }
    assert questions[..i] == questions;
    c := Accepted(Tally(answers, total, maxTotal));
  }

  /** The stored percentage, `int((total / max_total) * 100)` if `max_total` is
      non-zero and 0 otherwise, on integers. For sums from an accepted submission
      it lies in `[0, 100]` and is 100 exactly when every point was scored. */
  function Percentage(total: int, maxTotal: int): (p: int)
    ensures maxTotal == 0 ==> p == 0
    ensures 0 <= total <= maxTotal ==> 0 <= p <= 100
    ensures 0 <= total <= maxTotal && maxTotal > 0 ==> (p == 100 <==> total == maxTotal)
  {
    if maxTotal != 0 then
      PercentageBounds(total, maxTotal);
      (100 * total) / maxTotal
    else 0
  }

  /** The division facts behind the percentage's bounds. */
  lemma PercentageBounds(total: int, maxTotal: int)
    requires maxTotal != 0
    ensures 0 <= total <= maxTotal ==> 0 <= (100 * total) / maxTotal <= 100
    ensures 0 <= total <= maxTotal ==> ((100 * total) / maxTotal == 100 <==> total == maxTotal)
  {
    if 0 <= total <= maxTotal {
      DivBelow(100 * total, maxTotal, 101);
      if total < maxTotal {
        DivBelow(100 * total, maxTotal, 100);
      } else {
        DivAtLeast(100 * total, maxTotal, 100);
      }
    }
  }

  /** Floor division by a positive divisor stays below `c` when the dividend does
      not reach `c` times the divisor. */
  lemma DivBelow(a: int, m: int, c: int)
    requires m > 0 && 0 <= a < c * m
    ensures 0 <= a / m < c
  {
    var q := a / m;
    assert q * m <= a;
    assert (c - q) * m == c * m - q * m;
    assert (c - q) * m > 0;
  }

  /** Floor division by a positive divisor reaches `c` when the dividend
      reaches `c` times the divisor. */
  lemma DivAtLeast(a: int, m: int, c: int)
    requires m > 0 && c * m <= a
    ensures c <= a / m
  {
    var q := a / m;
    assert a < q * m + m;
    assert (q + 1 - c) * m == q * m + m - c * m;
    assert (q + 1 - c) * m > 0;
  }

  /** For answers that match their questions one for one, the score sum never
      exceeds the maximum sum, and reaches it exactly when every answer has its
      question's maximum score. */
  lemma {:induction false} FullMarks(qs: seq<Question>, answers: seq<Answer>)
    requires |answers| == |qs| && AnswersMatch(qs, answers)
    ensures 0 <= SumScores(answers) <= SumMaxScores(qs)
    ensures SumScores(answers) == SumMaxScores(qs)
            <==> forall k :: 0 <= k < |qs| ==> answers[k].score == qs[k].maxScore
  {
    if qs != [] {
      var n := |qs| - 1;
      assert AnswersMatch(qs[..n], answers[..n]);
      FullMarks(qs[..n], answers[..n]);
    }
  }

  /** When every question is worth at least one point, the maximum sum is at least
      the number of questions. */
  lemma {:induction false} MaxSumAtLeastCount(qs: seq<Question>)
    requires forall i :: 0 <= i < |qs| ==> qs[i].maxScore >= 1
    ensures SumMaxScores(qs) >= |qs|
  {
    if qs != [] {
      MaxSumAtLeastCount(qs[..|qs| - 1]);
    }
  }

  /** For an accepted submission against questions worth at least one point
      each, the percentage is 0 when there are no questions and 100 exactly when
      there are some and every answer has full marks. */
  lemma SubmissionPercentage(qs: seq<Question>, answers: seq<Answer>)
    requires forall i :: 0 <= i < |qs| ==> qs[i].maxScore >= 1
    requires |answers| == |qs| && AnswersMatch(qs, answers)
    ensures qs == [] ==> Percentage(SumScores(answers), SumMaxScores(qs)) == 0
    ensures Percentage(SumScores(answers), SumMaxScores(qs)) == 100
            <==> qs != [] && forall k :: 0 <= k < |qs| ==> answers[k].score == qs[k].maxScore
  {
    FullMarks(qs, answers);
    MaxSumAtLeastCount(qs);
  }
}
