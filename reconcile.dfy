// Score reconciliation (services/geminiService.ts): the total is recomputed
// from the itemized grades and the percentage from that total, overwriting
// whatever the model reported.
module ScoreReconciler {
  import opened Types

  /** `grades.reduce((acc, g) => acc + (g.marksObtained || 0), 0)`, a left
      fold in which absent, NaN and zero marks all count as 0. */
  function SumMarks(grades: seq<QuestionGrade>): real {
    if |grades| == 0 then 0.0
    else SumMarks(grades[..|grades| - 1]) + NumberOrZero(grades[|grades| - 1].marksObtained)
  }

  /** The marks available over all grades. */
  function SumTotalMarks(grades: seq<QuestionGrade>): real {
    if |grades| == 0 then 0.0
    else SumTotalMarks(grades[..|grades| - 1]) + grades[|grades| - 1].totalMarks
  }

  /** The percentage of `maxScore` that `total` is, or 0 when `maxScore` is
      not positive. */
  function PercentageOf(total: real, maxScore: real): real {
    if maxScore > 0.0 then total / maxScore * 100.0 else 0.0
  }

  /** The report's aggregate fields agree with its grades. */
  predicate Reconciled(r: EvaluationReport) {
    r.totalScore == SumMarks(r.grades) && r.percentage == PercentageOf(r.totalScore, r.maxScore)
  }

  /** The reconciled report: consistent aggregates, and every other field
      (grades, maximum, student details, feedback) passed through. */
  function Reconcile(raw: EvaluationReport): (r: EvaluationReport)
    ensures Reconciled(r)
    ensures r.grades == raw.grades && r.maxScore == raw.maxScore
    ensures r.studentInfo == raw.studentInfo && r.generalFeedback == raw.generalFeedback
  {
    var total := SumMarks(raw.grades);
    raw.(totalScore := total, percentage := PercentageOf(total, raw.maxScore))
  }

  /** What the model reported as total and percentage has no effect. */
  lemma ReconcileIgnoresReportedTotals(raw: EvaluationReport, total: real, percentage: real)
    ensures Reconcile(raw.(totalScore := total, percentage := percentage)) == Reconcile(raw)
  {
  }

  /** Reconciling a reconciled report changes nothing. */
  lemma ReconcileIdempotent(raw: EvaluationReport)
    ensures Reconcile(Reconcile(raw)) == Reconcile(raw)
  {
  }

  /** The reports reconciliation leaves alone are exactly the consistent ones. */
  lemma ReconcileFixpoint(r: EvaluationReport)
    ensures Reconcile(r) == r <==> Reconciled(r)
  {
  }

  /** The fold splits over concatenation. */
  lemma {:induction false} SumMarksAppend(a: seq<QuestionGrade>, b: seq<QuestionGrade>)
    ensures SumMarks(a + b) == SumMarks(a) + SumMarks(b)
  {
    if |b| > 0 {
      var b' := b[..|b| - 1];
      SumMarksAppend(a, b');
      assert (a + b)[..|a + b| - 1] == a + b';
      assert (a + b)[|a + b| - 1] == b[|b| - 1];
    } else {
      assert a + b == a;
    }
  }

  /** The total does not depend on the order of the grades. */
  lemma SumMarksOrderFree(a: seq<QuestionGrade>, b: seq<QuestionGrade>)
    ensures SumMarks(a + b) == SumMarks(b + a)
  {
    SumMarksAppend(a, b);
    SumMarksAppend(b, a);
  }

  /** A grade whose mark is absent or NaN counts exactly as a mark of 0. */
  lemma FalsyMarkCountsAsZero(a: seq<QuestionGrade>, g: QuestionGrade, b: seq<QuestionGrade>)
    requires !g.marksObtained.Finite?
    ensures SumMarks(a + [g] + b) == SumMarks(a + [g.(marksObtained := Finite(0.0))] + b)
  {
    var z := g.(marksObtained := Finite(0.0));
    SumMarksAppend(a + [g], b);
    SumMarksAppend(a + [z], b);
    assert (a + [g])[..|a|] == a;
    assert (a + [z])[..|a|] == a;
  }

  /** The mark of a grade lies between 0 and the grade's available marks. */
  predicate MarkWithinRange(g: QuestionGrade) {
    0.0 <= NumberOrZero(g.marksObtained) <= g.totalMarks
  }

  /** When every grade is within its range, the total lies between 0 and
      the marks available. */
  lemma {:induction false} SumMarksBounded(grades: seq<QuestionGrade>)
    requires forall k :: 0 <= k < |grades| ==> MarkWithinRange(grades[k])
    ensures 0.0 <= SumMarks(grades) <= SumTotalMarks(grades)
  {
    if |grades| > 0 {
      SumMarksBounded(grades[..|grades| - 1]);
    }
  }

  /** When every grade is within its range and the maximum is the marks
      available, the reconciled percentage lies between 0 and 100. */
  lemma PercentageBounded(raw: EvaluationReport)
    requires forall k :: 0 <= k < |raw.grades| ==> MarkWithinRange(raw.grades[k])
    requires raw.maxScore == SumTotalMarks(raw.grades)
    ensures 0.0 <= Reconcile(raw).percentage <= 100.0
  {
    SumMarksBounded(raw.grades);
    var t := SumMarks(raw.grades);
    if raw.maxScore > 0.0 {
      RatioAtMostOne(t, raw.maxScore);
    }
  }

  lemma RatioAtMostOne(x: real, m: real)
    requires 0.0 <= x <= m && m > 0.0
    ensures 0.0 <= x / m <= 1.0
  {
    var q := x / m;
    assert q * m == x;
  }

  /** Grades of 3 out of 5 and 0 out of 5 against a maximum of 10 reconcile
      to a total of 3 and 30 percent, whatever the model reported. */
  lemma ThreeOutOfTen(info: StudentInfo, reportedTotal: real, reportedPercentage: real, feedback: string)
    ensures var raw := EvaluationReport(info,
        [QuestionGrade("1", "", "", Finite(3.0), 5.0, ""), QuestionGrade("2", "", "", Finite(0.0), 5.0, "")],
        reportedTotal, 10.0, reportedPercentage, feedback);
      Reconcile(raw).totalScore == 3.0 && Reconcile(raw).percentage == 30.0
  {
    var grades := [QuestionGrade("1", "", "", Finite(3.0), 5.0, ""), QuestionGrade("2", "", "", Finite(0.0), 5.0, "")];
    assert grades[..1][..0] == [];
    assert SumMarks(grades) == 3.0;
  }
}
