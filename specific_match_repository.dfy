/**
 * `findMatchDetailsWithoutEmbedding`: the matches of one analysis, joined with
 * their example cases, ordered by rank, projected onto seven columns (the case's
 * embedding is not among them).
 */
module SpecificMatchRepository {
  import opened Wrappers
  import opened Domain
  import opened Sorting

  /**
   * One result row: `[matchedRank, caseId, category, caseContent, similarityScore,
   * highlightTextUser, highlightTextCase]`.
   */
  datatype MatchRow = MatchRow(
    matchedRank: int,
    caseId: Uuid,
    category: string,
    caseContent: string,
    similarityScore: real,
    highlightTextUser: string,
    highlightTextCase: string)

  function RankKey(m: SpecificMatch): real
  {
    m.matchedRank as real
  }

  /** The projection of a match and the case it points at. */
  function ToRow(m: SpecificMatch, c: ExampleCase): MatchRow
  {
    MatchRow(m.matchedRank, c.id, c.category, c.caseContent, m.similarityScore,
             m.highlightTextUser, m.highlightTextCase)
  }

  /** The match's row, when its example case exists. */
  function RowOf(m: SpecificMatch, cases: seq<ExampleCase>): Option<MatchRow>
  {
    match FindCase(cases, m.caseId)
    case Some(c) => Some(ToRow(m, c))
    case None => None
  }

  /**
   * The path `sm.exampleCase` is an inner join: each match with an existing case
   * yields its row, in the order of `ms`; a match whose case is missing yields none.
   */
  function JoinCases(ms: seq<SpecificMatch>, cases: seq<ExampleCase>): (r: seq<MatchRow>)
    ensures |r| <= |ms|
    decreases |ms|
  {
    if |ms| == 0 then []
    else
      var rest := JoinCases(ms[1..], cases);
      match RowOf(ms[0], cases)
      case Some(row) => [row] + rest
      case None => rest
  }

  /** Every row of the join comes from a match with its case, and every such match has its row. */
  lemma {:induction false} JoinCasesMembers(ms: seq<SpecificMatch>, cases: seq<ExampleCase>)
    ensures forall row :: row in JoinCases(ms, cases) ==> exists m :: m in ms && RowOf(m, cases) == Some(row)
    ensures forall m :: m in ms && RowOf(m, cases).Some? ==> RowOf(m, cases).value in JoinCases(ms, cases)
    decreases |ms|
  {
    if |ms| > 0 {
      JoinCasesMembers(ms[1..], cases);
      var rest := JoinCases(ms[1..], cases);
      assert forall m :: m in ms[1..] ==> m in ms;
      assert forall m :: m in ms ==> m == ms[0] || m in ms[1..];
      match RowOf(ms[0], cases)
      case Some(row) =>
        assert JoinCases(ms, cases) == [row] + rest;
      case None =>
        assert JoinCases(ms, cases) == rest;
    }
  }

  /** When every match has its case, the join keeps one row per match. */
  lemma {:induction false} JoinCasesTotal(ms: seq<SpecificMatch>, cases: seq<ExampleCase>)
    requires forall m :: m in ms ==> RowOf(m, cases).Some?
    ensures |JoinCases(ms, cases)| == |ms|
    decreases |ms|
  {
    if |ms| > 0 {
      assert ms[0] in ms;
      JoinCasesTotal(ms[1..], cases);
    }
  }

  /** When every match has its case, row k is exactly the projection of match k. */
  lemma {:induction false} JoinCasesExact(ms: seq<SpecificMatch>, cases: seq<ExampleCase>)
    requires forall k :: 0 <= k < |ms| ==> RowOf(ms[k], cases).Some?
    ensures |JoinCases(ms, cases)| == |ms|
    ensures forall k :: 0 <= k < |ms| ==> JoinCases(ms, cases)[k] == RowOf(ms[k], cases).value
    decreases |ms|
  {
    if |ms| > 0 {
      JoinCasesExact(ms[1..], cases);
      var r := JoinCases(ms, cases);
      assert r == [RowOf(ms[0], cases).value] + JoinCases(ms[1..], cases);
      forall k | 0 <= k < |ms| ensures r[k] == RowOf(ms[k], cases).value {
        if k > 0 {
          assert ms[1..][k - 1] == ms[k];
        }
      }
    }
  }

  /** Row ranks never decrease. */
  predicate RanksAscending(rows: seq<MatchRow>)
  {
    forall i, j :: 0 <= i < j < |rows| ==> rows[i].matchedRank <= rows[j].matchedRank
  }

  /** Every row's rank is at least `bound`. */
  predicate RanksAtLeast(rows: seq<MatchRow>, bound: int)
  {
    forall i :: 0 <= i < |rows| ==> bound <= rows[i].matchedRank
  }

  lemma ConsAscending(row: MatchRow, rest: seq<MatchRow>)
    requires RanksAscending(rest) && RanksAtLeast(rest, row.matchedRank)
    ensures RanksAscending([row] + rest)
  {
    var r := [row] + rest;
    forall i, j | 0 <= i < j < |r| ensures r[i].matchedRank <= r[j].matchedRank {
      assert r[j] == rest[j - 1];
      if i > 0 {
        assert r[i] == rest[i - 1];
      }
    }
  }

  /** Rows carry the ranks of their matches: a bound on every match's rank bounds every row's. */
  lemma {:induction false} JoinCasesRanksAbove(ms: seq<SpecificMatch>, cases: seq<ExampleCase>, bound: int)
    requires forall k :: 0 <= k < |ms| ==> bound <= ms[k].matchedRank
    ensures RanksAtLeast(JoinCases(ms, cases), bound)
    decreases |ms|
  {
    if |ms| > 0 {
      JoinCasesRanksAbove(ms[1..], cases, bound);
      var rest := JoinCases(ms[1..], cases);
      match RowOf(ms[0], cases)
      case None =>
        assert JoinCases(ms, cases) == rest;
      case Some(row) =>
        var r := [row] + rest;
        assert JoinCases(ms, cases) == r;
        forall i | 0 <= i < |r| ensures bound <= r[i].matchedRank {
          if i > 0 {
            assert r[i] == rest[i - 1];
          }
        }
    }
  }

  /** The join keeps the order of `ms`: matches sorted by rank give rows sorted by rank. */
  lemma {:induction false} JoinCasesSorted(ms: seq<SpecificMatch>, cases: seq<ExampleCase>)
    requires SortedBy(ms, RankKey)
    ensures RanksAscending(JoinCases(ms, cases))
    decreases |ms|
  {
    if |ms| > 0 {
      var rest := JoinCases(ms[1..], cases);
      assert SortedBy(ms[1..], RankKey);
      JoinCasesSorted(ms[1..], cases);
      match RowOf(ms[0], cases)
      case None =>
        assert JoinCases(ms, cases) == rest;
      case Some(row) =>
        assert JoinCases(ms, cases) == [row] + rest;
        forall k | 0 <= k < |ms[1..]| ensures ms[0].matchedRank <= ms[1..][k].matchedRank {
          assert RankKey(ms[0]) <= RankKey(ms[k + 1]);
        }
        JoinCasesRanksAbove(ms[1..], cases, ms[0].matchedRank);
        ConsAscending(row, rest);
    }
  }

  /**
   * `SELECT ... FROM SpecificMatch sm WHERE sm.analysisHistory.id = :analysisId
   * ORDER BY sm.matchedRank ASC`: rows only of that analysis's matches, every such
   * match (with its case) present, no limit, and ranks ascending.
   */
  function FindMatchDetailsWithoutEmbedding(ms: seq<SpecificMatch>, cases: seq<ExampleCase>, analysisId: Uuid)
    : (r: seq<MatchRow>)
    ensures forall i, j :: 0 <= i < j < |r| ==> r[i].matchedRank <= r[j].matchedRank
  {
    var sorted := SortByKey(MatchesOf(ms, analysisId), RankKey);
    JoinCasesSorted(sorted, cases);
    JoinCases(sorted, cases)
  }

  /** Rows only of that analysis's matches, and every such match with its case has its row. */
  lemma MatchDetailsMembers(ms: seq<SpecificMatch>, cases: seq<ExampleCase>, analysisId: Uuid)
    ensures var r := FindMatchDetailsWithoutEmbedding(ms, cases, analysisId);
            && (forall row :: row in r ==>
                  exists m :: m in ms && m.analysisId == analysisId && RowOf(m, cases) == Some(row))
            && (forall m :: m in ms && m.analysisId == analysisId && RowOf(m, cases).Some? ==>
                  RowOf(m, cases).value in r)
  {
    var mine := MatchesOf(ms, analysisId);
    var sorted := SortByKey(mine, RankKey);
    MatchesOfMembers(ms, analysisId);
    JoinCasesMembers(sorted, cases);
    assert forall m :: m in sorted <==> m in mine by {
      forall m ensures m in sorted <==> m in mine {
        assert m in sorted <==> m in multiset(sorted);
        assert m in mine <==> m in multiset(mine);
      }
    }
  }

  /**
   * With referential integrity (every match's case exists) nothing is dropped:
   * there is one row per match of the analysis.
   */
  lemma RowCountUnderIntegrity(ms: seq<SpecificMatch>, cases: seq<ExampleCase>, analysisId: Uuid)
    requires forall m :: m in ms ==> FindCase(cases, m.caseId).Some?
    ensures |FindMatchDetailsWithoutEmbedding(ms, cases, analysisId)| == |MatchesOf(ms, analysisId)|
  {
    var mine := MatchesOf(ms, analysisId);
    var sorted := SortByKey(mine, RankKey);
    MatchesOfMembers(ms, analysisId);
    forall m | m in sorted ensures RowOf(m, cases).Some? {
      assert m in multiset(sorted);
      assert m in mine;
    }
    JoinCasesTotal(sorted, cases);
  }

  /** Matches already ranked 1..n come back in table order: sorting them changes nothing. */
  lemma RankedMatchesInTableOrder(ms: seq<SpecificMatch>, cases: seq<ExampleCase>, analysisId: Uuid)
    requires RanksContiguous(MatchesOf(ms, analysisId))
    ensures FindMatchDetailsWithoutEmbedding(ms, cases, analysisId) == JoinCases(MatchesOf(ms, analysisId), cases)
  {
    var mine := MatchesOf(ms, analysisId);
    assert SortedBy(mine, RankKey);
    SortSortedIsIdentity(mine, RankKey);
  }

  /**
   * An analysis whose matches (`mine`) are ranked 1..n and all point at stored
   * cases reads back row for row: row k is match k's projection, with rank k + 1.
   */
  lemma RankedMatchesReadBack(ms: seq<SpecificMatch>, cases: seq<ExampleCase>, analysisId: Uuid, mine: seq<SpecificMatch>)
    requires MatchesOf(ms, analysisId) == mine && RanksContiguous(mine)
    requires forall k :: 0 <= k < |mine| ==> RowOf(mine[k], cases).Some?
    ensures var rows := FindMatchDetailsWithoutEmbedding(ms, cases, analysisId);
            && |rows| == |mine|
            && forall k :: 0 <= k < |mine| ==> rows[k].matchedRank == k + 1 && rows[k] == RowOf(mine[k], cases).value
  {
    RankedMatchesInTableOrder(ms, cases, analysisId);
    JoinCasesExact(mine, cases);
  }
}
