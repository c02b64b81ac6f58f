/**
 * Professor and schedule scoring. A professor's score is
 * rating - difficulty + 2 * overall grade - average course grade, rounded to
 * four decimals, and is absent when any of the four inputs is. A schedule's
 * score is the rounded sum of the scores of the instructors of its options,
 * and is absent as soon as one instructor has no score.
 */
module ProfScoring {
  import opened Wrappers
  import opened Seqs
  import opened Models

  /** The looked-up data of one professor; a missing key and a `None` value are both `None`. */
  datatype ProfData = ProfData(
    rmpRating: Option<real>,
    rmpDifficulty: Option<real>,
    profOverallGrade: Option<real>,
    avgGradeInCourses: Option<real>,
    totalRatings: Option<real>)

  /** An entry of the professor map: the data and its score. */
  datatype ProfRecord = ProfRecord(data: Option<ProfData>, score: Option<real>)

  type ProfMap = map<string, ProfRecord>

  /** The integer nearest to `x`, ties to the even one (Python's `round`). */
  function RoundHalfEven(x: real): (n: int)
    ensures n as real - 0.5 <= x <= n as real + 0.5
    ensures x - x.Floor as real == 0.5 ==> n % 2 == 0
  {
    var f := x.Floor;
    var frac := x - f as real;
    if frac < 0.5 then f
    else if frac > 0.5 then f + 1
    else if f % 2 == 0 then f
    else f + 1
  }

  /** A whole number of ten-thousandths, scaled back up, is a whole number. */
  lemma WholeTenThousandths(n: int)
    ensures ((n as real / 10000.0) * 10000.0).Floor as real == (n as real / 10000.0) * 10000.0
  {
    assert (n as real / 10000.0) * 10000.0 == n as real;
    assert (n as real).Floor == n;
  }

  /** `round(x, 4)` on exact reals: the result is a whole number of ten-thousandths. */
  function Round4(x: real): (r: real)
    ensures (r * 10000.0).Floor as real == r * 10000.0
  {
    var n := RoundHalfEven(x * 10000.0);
    WholeTenThousandths(n);
    n as real / 10000.0
  }

  /** Rounding moves a value by at most half of the fourth decimal. */
  lemma Round4IsNearest(x: real)
    ensures -0.00005 <= Round4(x) - x <= 0.00005
  {
    var n := RoundHalfEven(x * 10000.0);
    assert Round4(x) - x == (n as real - x * 10000.0) / 10000.0;
  }

  /** A value with at most four decimals is left as it is. */
  lemma Round4Exact(k: int)
    ensures Round4(k as real / 10000.0) == k as real / 10000.0
  {
    var x := k as real / 10000.0;
    assert x * 10000.0 == k as real;
    assert (k as real).Floor == k;
  }

  /** Rounding twice is rounding once. */
  lemma Round4Idempotent(x: real)
    ensures Round4(Round4(x)) == Round4(x)
  {
    Round4Exact(RoundHalfEven(x * 10000.0));
  }

  /** All four inputs of the formula are present. */
  predicate HasRequiredData(d: ProfData) {
    d.rmpRating.Some? && d.rmpDifficulty.Some? && d.profOverallGrade.Some? && d.avgGradeInCourses.Some?
  }

  /** The formula before rounding: the overall grade counts twice. */
  function RawScore(d: ProfData): real
    requires HasRequiredData(d)
  {
    d.rmpRating.value - d.rmpDifficulty.value + d.profOverallGrade.value + d.profOverallGrade.value - d.avgGradeInCourses.value
  }

  /** `calculate_prof_score`. */
  function CalculateProfScore(profData: Option<ProfData>): (r: Option<real>)
    ensures r.Some? <==> profData.Some? && HasRequiredData(profData.value)
    ensures r.Some? ==> -0.00005 <= r.value - RawScore(profData.value) <= 0.00005
  {
    match profData
    case None => None
    case Some(d) =>
      if !HasRequiredData(d) then None
      else
        Round4IsNearest(RawScore(d));
        Some(Round4(RawScore(d)))
  }

  /** The score is rating - difficulty + 2 * overall grade - average grade, rounded to four decimals. */
  lemma ProfScoreFormula(d: ProfData)
    requires HasRequiredData(d)
    ensures CalculateProfScore(Some(d))
         == Some(Round4(d.rmpRating.value - d.rmpDifficulty.value + 2.0 * d.profOverallGrade.value - d.avgGradeInCourses.value))
  {
  }

  /** The number of ratings plays no part in the score. */
  lemma TotalRatingsIrrelevant(d: ProfData, totalRatings: Option<real>)
    ensures CalculateProfScore(Some(d.(totalRatings := totalRatings))) == CalculateProfScore(Some(d))
  {
  }

  /** A rating of 4, a difficulty of 2, an overall grade of 80 and a course average of 75 score 87. */
  lemma ProfScoreExample()
    ensures CalculateProfScore(Some(ProfData(Some(4.0), Some(2.0), Some(80.0), Some(75.0), None))) == Some(87.0)
  {
    Round4Exact(870000);
    assert 870000 as real / 10000.0 == 87.0;
  }

  /** The instructor of an option has a score in the map. */
  predicate Scored(o: ScheduleOption, profs: ProfMap) {
    o.section.instructor in profs && profs[o.section.instructor].score.Some?
  }

  /** The running total of the loop: the scores of the scored options; the others add nothing. */
  function ScoredSum(schedule: Schedule, profs: ProfMap): real
    decreases |schedule|
  {
    if |schedule| == 0 then 0.0
    else
      var o := schedule[|schedule| - 1];
      ScoredSum(schedule[..|schedule| - 1], profs) + (if Scored(o, profs) then profs[o.section.instructor].score.value else 0.0)
  }

  /** The instructors without a score, in schedule order, repeated as often as they teach. */
  function MissingProfs(schedule: Schedule, profs: ProfMap): (r: seq<string>)
    ensures |r| <= |schedule|
    decreases |schedule|
  {
    if |schedule| == 0 then []
    else
      var o := schedule[|schedule| - 1];
      MissingProfs(schedule[..|schedule| - 1], profs) + (if Scored(o, profs) then [] else [o.section.instructor])
  }

  /**
   * `calculate_schedule_score` as a value. A score, when there is one, has
   * at most four decimals, is within half of the fourth decimal of the exact
   * total, and is not moved by rounding again.
   */
  function ScheduleScore(schedule: Schedule, profs: ProfMap): (r: Option<real>)
    ensures r.Some? ==> -0.00005 <= r.value - ScoredSum(schedule, profs) <= 0.00005
    ensures r.Some? ==> Round4(r.value) == r.value
  {
    if |MissingProfs(schedule, profs)| > 0 then None
    else
      Round4IsNearest(ScoredSum(schedule, profs));
      Round4Idempotent(ScoredSum(schedule, profs));
      Some(Round4(ScoredSum(schedule, profs)))
  }

  /** An instructor is missing exactly when some option of the schedule has no score. */
  lemma {:induction false} MissingProfsEmptyIff(schedule: Schedule, profs: ProfMap)
    ensures |MissingProfs(schedule, profs)| == 0 <==> forall i :: 0 <= i < |schedule| ==> Scored(schedule[i], profs)
    decreases |schedule|
  {
    if |schedule| > 0 {
      var front := schedule[..|schedule| - 1];
      MissingProfsEmptyIff(front, profs);
      assert forall i :: 0 <= i < |front| ==> front[i] == schedule[i];
    }
  }

  /**
   * The schedule has no score exactly when some option's instructor is not
   * in the map or has no score; otherwise it is the rounded sum of the
   * option scores.
   */
  lemma ScheduleScoreNoneIff(schedule: Schedule, profs: ProfMap)
    ensures ScheduleScore(schedule, profs).None? <==>
              exists i :: 0 <= i < |schedule| && (schedule[i].section.instructor !in profs
                                                  || profs[schedule[i].section.instructor].score.None?)
  {
    MissingProfsEmptyIff(schedule, profs);
  }

  /** The schedule with no option scores 0. */
  lemma EmptyScheduleScoresZero(profs: ProfMap)
    ensures ScheduleScore([], profs) == Some(0.0)
  {
    Round4Exact(0);
  }

  /** The total of two schedules joined is the sum of their totals, so a repeated instructor counts each time. */
  lemma {:induction false} ScoredSumAppend(a: Schedule, b: Schedule, profs: ProfMap)
    ensures ScoredSum(a + b, profs) == ScoredSum(a, profs) + ScoredSum(b, profs)
    ensures MissingProfs(a + b, profs) == MissingProfs(a, profs) + MissingProfs(b, profs)
    decreases |b|
  {
    if |b| == 0 {
      assert a + b == a;
    } else {
      var front := b[..|b| - 1];
      assert (a + b)[..|a + b| - 1] == a + front;
      ScoredSumAppend(a, front, profs);
    }
  }

  /** Swapping two blocks of options leaves the score unchanged. */
  lemma ScheduleScoreSwap(a: Schedule, b: Schedule, profs: ProfMap)
    ensures ScheduleScore(a + b, profs) == ScheduleScore(b + a, profs)
  {
    ScoredSumAppend(a, b, profs);
    ScoredSumAppend(b, a, profs);
  }

  /** Inserting one option anywhere adds its weight to the total and its instructor, if unscored, to the missing list. */
  lemma InsertOption(before: Schedule, x: ScheduleOption, after: Schedule, profs: ProfMap)
    ensures ScoredSum(before + [x] + after, profs) == ScoredSum(before + after, profs) + ScoredSum([x], profs)
    ensures |MissingProfs(before + [x] + after, profs)| == |MissingProfs(before + after, profs)| + |MissingProfs([x], profs)|
  {
    ScoredSumAppend(before, [x], profs);
    ScoredSumAppend(before + [x], after, profs);
    ScoredSumAppend(before, after, profs);
  }

  /** Reordering the options keeps the exact total and the number of missing instructors. */
  lemma {:induction false} PermutationKeepsTotals(a: Schedule, b: Schedule, profs: ProfMap)
    requires multiset(a) == multiset(b)
    ensures ScoredSum(a, profs) == ScoredSum(b, profs)
    ensures |MissingProfs(a, profs)| == |MissingProfs(b, profs)|
    decreases |a|
  {
    if |a| == 0 {
      assert |b| == |multiset(b)| == 0;
    } else {
      var x := a[|a| - 1];
      var front := a[..|a| - 1];
      assert a == front + [x];
      assert x in multiset(b);
      var k :| 0 <= k < |b| && b[k] == x;
      var before, after := b[..k], b[k + 1..];
      assert b == before + [x] + after;
      MultisetCancel(front, x, before, after);
      PermutationKeepsTotals(front, before + after, profs);
      ScoredSumAppend(front, [x], profs);
      InsertOption(before, x, after, profs);
    }
  }

  /** The score does not depend on the order of the options (in exact arithmetic). */
  lemma ScheduleScorePermutation(a: Schedule, b: Schedule, profs: ProfMap)
    requires multiset(a) == multiset(b)
    ensures ScheduleScore(a, profs) == ScheduleScore(b, profs)
  {
    PermutationKeepsTotals(a, b, profs);
  }

  /** `calculate_schedule_score`: sums the known scores and records the instructors without one. */
  method CalculateScheduleScore(schedule: Schedule, profDataMap: ProfMap) returns (score: Option<real>)
    ensures score == ScheduleScore(schedule, profDataMap)
  {
    var totalScore := 0.0;
    var missingProfs: seq<string> := [];
    for i := 0 to |schedule|
      invariant totalScore == ScoredSum(schedule[..i], profDataMap)
      invariant missingProfs == MissingProfs(schedule[..i], profDataMap)
    {
      var instructor := schedule[i].section.instructor;
      assert schedule[..i + 1][..i] == schedule[..i];
      if instructor in profDataMap && profDataMap[instructor].score.Some? {
        totalScore := totalScore + profDataMap[instructor].score.value;
      } else {
        missingProfs := missingProfs + [instructor];
      }
    }
    assert schedule[..|schedule|] == schedule;
    if |missingProfs| > 0 {
      return None;
    }
    return Some(Round4(totalScore));
  }
}
