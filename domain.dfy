/**
 * The persisted entities (analysis_history, analysis_detail, example_case,
 * specific_match, users) and the store that holds them.
 */
module Domain {
  import opened Wrappers

  /** An opaque identifier; `text` is its canonical `UUID.toString()` form. */
  datatype Uuid = Uuid(text: string)

  /** One uploaded screenshot's analysis (AnalysisHistory). */
  datatype AnalysisHistory = AnalysisHistory(
    id: Uuid,
    userId: Uuid,
    imageUrl: string,
    rawText: string,
    riskScore: Option<int>,
    riskLevel: string,
    description: string,
    createdAt: int)

  /** One detected manipulation pattern of an analysis (AnalysisDetail). */
  datatype AnalysisDetail = AnalysisDetail(
    analysisId: Uuid,
    patternType: string,
    patternScore: int,
    detectedSentence: Option<string>,
    keyword: Option<string>)

  /** A catalogued historical scam case (ExampleCase); read-only to the pipeline. */
  datatype ExampleCase = ExampleCase(
    id: Uuid,
    caseContent: string,
    category: string,
    embedding: seq<real>)

  /** A historical case matched to an analysis (SpecificMatch). */
  datatype SpecificMatch = SpecificMatch(
    analysisId: Uuid,
    caseId: Uuid,
    similarityScore: real,
    matchedRank: int,
    highlightTextUser: string,
    highlightTextCase: string)

  /** The tables, as values. */
  datatype Db = Db(
    users: set<Uuid>,
    histories: seq<AnalysisHistory>,
    details: seq<AnalysisDetail>,
    matches: seq<SpecificMatch>,
    cases: seq<ExampleCase>)

  // ---------------------------------------------------------------------------
  // Lookups by key
  // ---------------------------------------------------------------------------

  /** `findById` on analysis_history: the first record with that id. */
  function FindHistory(hs: seq<AnalysisHistory>, id: Uuid): (r: Option<AnalysisHistory>)
    ensures r.Some? ==> r.value in hs && r.value.id == id
    ensures r.None? <==> forall i :: 0 <= i < |hs| ==> hs[i].id != id
    decreases |hs|
  {
    if |hs| == 0 then None
    else if hs[0].id == id then Some(hs[0])
    else FindHistory(hs[1..], id)
  }

  /** `findById` on example_case: the first case with that id. */
  function FindCase(cases: seq<ExampleCase>, id: Uuid): (r: Option<ExampleCase>)
    ensures r.Some? ==> r.value in cases && r.value.id == id
    ensures r.None? <==> forall i :: 0 <= i < |cases| ==> cases[i].id != id
    decreases |cases|
  {
    if |cases| == 0 then None
    else if cases[0].id == id then Some(cases[0])
    else FindCase(cases[1..], id)
  }

  /** `findByAnalysisHistory`: the details of one analysis, in table order. */
  function DetailsOf(ds: seq<AnalysisDetail>, id: Uuid): (r: seq<AnalysisDetail>)
    ensures |r| <= |ds|
    decreases |ds|
  {
    if |ds| == 0 then []
    else DetailsOf(ds[..|ds| - 1], id) + (if ds[|ds| - 1].analysisId == id then [ds[|ds| - 1]] else [])
  }

  /** The details found are exactly the stored details of that analysis. */
  lemma {:induction false} DetailsOfMembers(ds: seq<AnalysisDetail>, id: Uuid)
    ensures forall d :: d in DetailsOf(ds, id) <==> d in ds && d.analysisId == id
    decreases |ds|
  {
    if |ds| > 0 {
      var init := ds[..|ds| - 1];
      DetailsOfMembers(init, id);
      assert ds == init + [ds[|ds| - 1]];
    }
  }

  /** The matches of one analysis, in table order. */
  function MatchesOf(ms: seq<SpecificMatch>, id: Uuid): (r: seq<SpecificMatch>)
    ensures |r| <= |ms|
    decreases |ms|
  {
    if |ms| == 0 then []
    else MatchesOf(ms[..|ms| - 1], id) + (if ms[|ms| - 1].analysisId == id then [ms[|ms| - 1]] else [])
  }

  /** The matches found are exactly the stored matches of that analysis. */
  lemma {:induction false} MatchesOfMembers(ms: seq<SpecificMatch>, id: Uuid)
    ensures forall m :: m in MatchesOf(ms, id) <==> m in ms && m.analysisId == id
    decreases |ms|
  {
    if |ms| > 0 {
      var init := ms[..|ms| - 1];
      MatchesOfMembers(init, id);
      assert ms == init + [ms[|ms| - 1]];
    }
  }

  lemma {:induction false} DetailsOfAppend(a: seq<AnalysisDetail>, b: seq<AnalysisDetail>, id: Uuid)
    ensures DetailsOf(a + b, id) == DetailsOf(a, id) + DetailsOf(b, id)
    decreases |b|
  {
    if |b| == 0 {
      assert a + b == a;
    } else {
      assert (a + b)[..|a + b| - 1] == a + b[..|b| - 1];
      DetailsOfAppend(a, b[..|b| - 1], id);
    }
  }

  lemma {:induction false} MatchesOfAppend(a: seq<SpecificMatch>, b: seq<SpecificMatch>, id: Uuid)
    ensures MatchesOf(a + b, id) == MatchesOf(a, id) + MatchesOf(b, id)
    decreases |b|
  {
    if |b| == 0 {
      assert a + b == a;
    } else {
      assert (a + b)[..|a + b| - 1] == a + b[..|b| - 1];
      MatchesOfAppend(a, b[..|b| - 1], id);
    }
  }

  /** A filter that keeps no element returns nothing. */
  lemma MatchesOfNone(ms: seq<SpecificMatch>, id: Uuid)
    requires forall k :: 0 <= k < |ms| ==> ms[k].analysisId != id
    ensures MatchesOf(ms, id) == []
  {
  }

  lemma DetailsOfNone(ds: seq<AnalysisDetail>, id: Uuid)
    requires forall k :: 0 <= k < |ds| ==> ds[k].analysisId != id
    ensures DetailsOf(ds, id) == []
  {
  }

  /** A filter that keeps every element returns the sequence itself. */
  lemma {:induction false} MatchesOfAll(ms: seq<SpecificMatch>, id: Uuid)
    requires forall k :: 0 <= k < |ms| ==> ms[k].analysisId == id
    ensures MatchesOf(ms, id) == ms
    decreases |ms|
  {
    if |ms| > 0 {
      var init := ms[..|ms| - 1];
      assert forall k :: 0 <= k < |init| ==> init[k] == ms[k];
      MatchesOfAll(init, id);
      assert MatchesOf(ms, id) == init + [ms[|ms| - 1]];
      assert ms == init + [ms[|ms| - 1]];
    }
  }

  lemma {:induction false} DetailsOfAll(ds: seq<AnalysisDetail>, id: Uuid)
    requires forall k :: 0 <= k < |ds| ==> ds[k].analysisId == id
    ensures DetailsOf(ds, id) == ds
    decreases |ds|
  {
    if |ds| > 0 {
      var init := ds[..|ds| - 1];
      assert forall k :: 0 <= k < |init| ==> init[k] == ds[k];
      DetailsOfAll(init, id);
      assert DetailsOf(ds, id) == init + [ds[|ds| - 1]];
      assert ds == init + [ds[|ds| - 1]];
    }
  }

  /** With unique ids, a case is found by its own id. */
  lemma {:induction false} FindCaseUnique(cases: seq<ExampleCase>, k: nat)
    requires k < |cases|
    requires forall i, j :: 0 <= i < j < |cases| ==> cases[i].id != cases[j].id
    ensures FindCase(cases, cases[k].id) == Some(cases[k])
    decreases k
  {
    if k > 0 {
      FindCaseUnique(cases[1..], k - 1);
    }
  }

  /** A record appended under a fresh id is found by that id; the others are unaffected. */
  lemma {:induction false} FindHistoryAppend(hs: seq<AnalysisHistory>, h: AnalysisHistory, id: Uuid)
    requires FindHistory(hs, h.id).None?
    ensures FindHistory(hs + [h], id) == if id == h.id then Some(h) else FindHistory(hs, id)
    decreases |hs|
  {
    if |hs| == 0 {
      assert hs + [h] == [h];
    } else {
      assert (hs + [h])[1..] == hs[1..] + [h];
      FindHistoryAppend(hs[1..], h, id);
    }
  }

  // ---------------------------------------------------------------------------
  // Integrity of the tables
  // ---------------------------------------------------------------------------

  /** The matches of one analysis carry ranks 1, 2, ..., n in table order. */
  predicate RanksContiguous(ms: seq<SpecificMatch>)
  {
    forall k :: 0 <= k < |ms| ==> ms[k].matchedRank == k + 1
  }

  /**
   * Primary keys are unique, every foreign key points at an existing row (no
   * orphan details or matches), and each analysis's matches are ranked 1..n.
   */
  ghost predicate ValidDb(db: Db)
  {
    && (forall i, j :: 0 <= i < j < |db.histories| ==> db.histories[i].id != db.histories[j].id)
    && (forall i, j :: 0 <= i < j < |db.cases| ==> db.cases[i].id != db.cases[j].id)
    && (forall h :: h in db.histories ==> h.userId in db.users)
    && (forall d :: d in db.details ==> FindHistory(db.histories, d.analysisId).Some?)
    && (forall m :: m in db.matches ==>
          FindHistory(db.histories, m.analysisId).Some? && FindCase(db.cases, m.caseId).Some?)
    && (forall h :: h in db.histories ==> RanksContiguous(MatchesOf(db.matches, h.id)))
  }

  // ---------------------------------------------------------------------------
  // The store
  // ---------------------------------------------------------------------------

  /** A request the backend sends to a service outside the database. */
  datatype OutboundCall =
    | PutObject(key: string)                   // S3 putObject
    | Recognize                                // the ML recognizer
    | VectorSearch(query: string, limit: nat)  // the pgvector nearest-neighbour query

  /**
   * The database the repositories read and write, plus the record of the calls
   * made to outside services (which no transaction can take back).
   */
  class Store {
    var users: set<Uuid>
    var histories: seq<AnalysisHistory>
    var details: seq<AnalysisDetail>
    var matches: seq<SpecificMatch>
    var cases: seq<ExampleCase>
    var calls: seq<OutboundCall>

    function Tables(): Db
      reads this
    {
      Db(users, histories, details, matches, cases)
    }

    ghost predicate Valid()
      reads this
    {
      ValidDb(Tables())
    }

    /** A database seeded with the historical cases and nothing else. */
    constructor (seed: seq<ExampleCase>)
      requires forall i, j :: 0 <= i < j < |seed| ==> seed[i].id != seed[j].id
      ensures Valid()
      ensures Tables() == Db({}, [], [], [], seed) && calls == []
    {
      users, histories, details, matches, cases, calls := {}, [], [], [], seed, [];
    }
  }
}
