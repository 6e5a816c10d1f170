/**
 * `countByRiskScoreGreaterThanEqualAndCreatedAtBetween`: a filtered COUNT over
 * analysis_history. Timestamps are abstract instants (`int`), ordered as
 * `LocalDateTime` values are.
 */
module AnalysisHistoryRepository {
  import opened Wrappers
  import opened Domain

  /**
   * The WHERE clause: a score at least the minimum (a NULL score never compares
   * true in SQL), created no earlier than `startDate` and strictly before `endDate`.
   */
  predicate Counted(h: AnalysisHistory, minRiskScore: int, startDate: int, endDate: int)
  {
    h.riskScore.Some? && h.riskScore.value >= minRiskScore && startDate <= h.createdAt < endDate
  }

  /** `SELECT COUNT(ah) ... WHERE <Counted>`. */
  function CountByRiskScoreGreaterThanEqualAndCreatedAtBetween(
    hs: seq<AnalysisHistory>, minRiskScore: int, startDate: int, endDate: int): (r: nat)
    ensures r <= |hs|
    ensures r == 0 <==> forall h :: h in hs ==> !Counted(h, minRiskScore, startDate, endDate)
    ensures r == |hs| <==> forall h :: h in hs ==> Counted(h, minRiskScore, startDate, endDate)
    decreases |hs|
  {
    if |hs| == 0 then 0
    else
      var init := hs[..|hs| - 1];
      assert hs == init + [hs[|hs| - 1]];
      CountByRiskScoreGreaterThanEqualAndCreatedAtBetween(init, minRiskScore, startDate, endDate)
        + (if Counted(hs[|hs| - 1], minRiskScore, startDate, endDate) then 1 else 0)
  }

  /** Counting over two tables is the sum of the counts. */
  lemma {:induction false} CountAppend(a: seq<AnalysisHistory>, b: seq<AnalysisHistory>, minRiskScore: int, startDate: int, endDate: int)
    ensures CountByRiskScoreGreaterThanEqualAndCreatedAtBetween(a + b, minRiskScore, startDate, endDate)
         == CountByRiskScoreGreaterThanEqualAndCreatedAtBetween(a, minRiskScore, startDate, endDate)
          + CountByRiskScoreGreaterThanEqualAndCreatedAtBetween(b, minRiskScore, startDate, endDate)
    decreases |b|
  {
    if |b| == 0 {
      assert a + b == a;
    } else {
      assert (a + b)[..|a + b| - 1] == a + b[..|b| - 1];
      CountAppend(a, b[..|b| - 1], minRiskScore, startDate, endDate);
    }
  }

  /**
   * The window is half-open: two adjacent windows `[s, m)` and `[m, e)` count
   * every record of `[s, e)` exactly once.
   */
  lemma {:induction false} AdjacentWindowsAdd(hs: seq<AnalysisHistory>, minRiskScore: int, s: int, m: int, e: int)
    requires s <= m <= e
    ensures CountByRiskScoreGreaterThanEqualAndCreatedAtBetween(hs, minRiskScore, s, m)
          + CountByRiskScoreGreaterThanEqualAndCreatedAtBetween(hs, minRiskScore, m, e)
         == CountByRiskScoreGreaterThanEqualAndCreatedAtBetween(hs, minRiskScore, s, e)
    decreases |hs|
  {
    if |hs| > 0 {
      AdjacentWindowsAdd(hs[..|hs| - 1], minRiskScore, s, m, e);
    }
  }

  /** Raising the minimum score never counts more records. */
  lemma {:induction false} CountAntitoneInScore(hs: seq<AnalysisHistory>, lo: int, hi: int, startDate: int, endDate: int)
    requires lo <= hi
    ensures CountByRiskScoreGreaterThanEqualAndCreatedAtBetween(hs, hi, startDate, endDate)
         <= CountByRiskScoreGreaterThanEqualAndCreatedAtBetween(hs, lo, startDate, endDate)
    decreases |hs|
  {
    if |hs| > 0 {
      CountAntitoneInScore(hs[..|hs| - 1], lo, hi, startDate, endDate);
    }
  }
}
