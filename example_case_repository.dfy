/**
 * `findSimilarCasesWithDistance`: the nearest-neighbour query over example_case.
 * The cosine distance (pgvector's `<=>`) is computed by the database; here it is
 * the parameter `dist`, the distance of each case from the query vector.
 */
module ExampleCaseRepository {
  import opened Domain
  import opened Sorting

  /** One result row: `[id, case_content, distance]`. */
  datatype CaseRow = CaseRow(id: Uuid, caseContent: string, distance: real)

  function RowDistance(row: CaseRow): real
  {
    row.distance
  }

  /** The `SELECT id, case_content, distance FROM example_case` part, in table order. */
  function CaseRows(cases: seq<ExampleCase>, dist: ExampleCase -> real): (r: seq<CaseRow>)
    ensures |r| == |cases|
    ensures forall k :: 0 <= k < |cases| ==>
              r[k] == CaseRow(cases[k].id, cases[k].caseContent, dist(cases[k]))
  {
    seq(|cases|, k requires 0 <= k < |cases| => CaseRow(cases[k].id, cases[k].caseContent, dist(cases[k])))
  }

  /**
   * `ORDER BY distance LIMIT :limit`: at most `limit` rows (exactly that many when
   * the table is large enough).
   */
  function FindSimilarCasesWithDistance(cases: seq<ExampleCase>, dist: ExampleCase -> real, limit: nat)
    : (r: seq<CaseRow>)
    ensures |r| == if limit < |cases| then limit else |cases|
  {
    TakeLeast(CaseRows(cases, dist), limit, RowDistance)
  }

  /**
   * The rows come in ascending distance, are taken from the table, and every row
   * left out is at least as far as every row returned.
   */
  lemma NearestFirst(cases: seq<ExampleCase>, dist: ExampleCase -> real, limit: nat)
    ensures var r := FindSimilarCasesWithDistance(cases, dist, limit);
            && (forall i, j :: 0 <= i < j < |r| ==> r[i].distance <= r[j].distance)
            && multiset(r) <= multiset(CaseRows(cases, dist))
            && forall x, i :: x in multiset(CaseRows(cases, dist)) - multiset(r) && 0 <= i < |r| ==>
                 r[i].distance <= x.distance
  {
    TakeLeastIsLeast(CaseRows(cases, dist), limit, RowDistance);
  }

  /** Every returned row is the row of some stored case: same id, same content. */
  lemma ReturnedRowsAreStoredCases(cases: seq<ExampleCase>, dist: ExampleCase -> real, limit: nat, i: nat)
    requires i < |FindSimilarCasesWithDistance(cases, dist, limit)|
    ensures exists k :: 0 <= k < |cases| &&
              FindSimilarCasesWithDistance(cases, dist, limit)[i] ==
                CaseRow(cases[k].id, cases[k].caseContent, dist(cases[k]))
  {
    var r := FindSimilarCasesWithDistance(cases, dist, limit);
    var all := CaseRows(cases, dist);
    NearestFirst(cases, dist, limit);
    assert r[i] in multiset(r);
    assert r[i] in multiset(all);
    var k :| 0 <= k < |all| && all[k] == r[i];
  }
}
