/**
 * The screenshot analysis pipeline: upload validation, the ordered steps of an
 * upload (user, object storage, recognizer, history, details, similar-case
 * matches), and the owner-checked read of one analysis.
 */
module AnalysisService {
  import opened Wrappers
  import opened Text
  import opened Sorting
  import opened Domain
  import opened ExampleCaseRepository
  import opened SpecificMatchRepository
  import opened GeminiService
  import S3Service

  // ---------------------------------------------------------------------------
  // Upload validation
  // ---------------------------------------------------------------------------

  /**
   * What the code reads of the uploaded multipart file. `isEmpty` is kept apart
   * from `size`, though Spring derives it as `size == 0`.
   */
  datatype MultipartFile = MultipartFile(
    isEmpty: bool,
    size: int,
    contentType: Option<string>,
    originalFilename: Option<string>)

  datatype ValidationError = EmptyFile | FileTooLarge | UnknownContentType | UnsupportedContentType

  /** 10 MiB. */
  const MaxImageSize: int := 10 * 1024 * 1024

  const AllowedContentTypes: seq<string> := ["image/jpeg", "image/jpg", "image/png"]

  /**
   * `validateImage`: accepts exactly the non-empty files of at most 10 MiB with a
   * known, allowed content type; otherwise it rejects at the first failing check,
   * in the order emptiness, size, missing type, allowed type.
   */
  function ValidateImage(image: MultipartFile): (r: Outcome<ValidationError>)
    ensures r == Pass <==>
              && !image.isEmpty && image.size <= MaxImageSize
              && image.contentType.Some? && image.contentType.value in AllowedContentTypes
    ensures r == Fail(EmptyFile) <==> image.isEmpty
    ensures r == Fail(FileTooLarge) <==> !image.isEmpty && image.size > MaxImageSize
    ensures r == Fail(UnknownContentType) <==>
              !image.isEmpty && image.size <= MaxImageSize && image.contentType.None?
    ensures r == Fail(UnsupportedContentType) <==>
              && !image.isEmpty && image.size <= MaxImageSize
              && image.contentType.Some? && image.contentType.value !in AllowedContentTypes
  {
    if image.isEmpty then Fail(EmptyFile)
    else if image.size > MaxImageSize then Fail(FileTooLarge)
    else if image.contentType.None? then Fail(UnknownContentType)
    else if image.contentType.value !in AllowedContentTypes then Fail(UnsupportedContentType)
    else Pass
  }

  /** The size limit is inclusive: exactly 10485760 bytes pass, one more byte does not. */
  lemma SizeLimitIsInclusive(contentType: string, name: Option<string>)
    requires contentType in AllowedContentTypes
    ensures ValidateImage(MultipartFile(false, 10485760, Some(contentType), name)) == Pass
    ensures ValidateImage(MultipartFile(false, 10485761, Some(contentType), name)) == Fail(FileTooLarge)
  {
  }

  // ---------------------------------------------------------------------------
  // The recognizer's response
  // ---------------------------------------------------------------------------

  datatype PsychologicalPattern = PsychologicalPattern(
    patternType: string,
    detectedSentence: Option<string>,
    keyword: Option<string>,
    patternScore: int)

  datatype MlAnalysisResponse = MlAnalysisResponse(
    ocrText: string,
    riskScore: Option<int>,
    riskLevel: string,
    description: string,
    psychologicalPatterns: Option<seq<PsychologicalPattern>>,
    embedding: Option<seq<real>>)

  // ---------------------------------------------------------------------------
  // The embedding as a pgvector literal
  // ---------------------------------------------------------------------------

  /** Each element as `Float.toString` writes it (`show`). */
  function ShownElements(embedding: seq<real>, show: real -> string): (r: seq<string>)
    ensures |r| == |embedding|
    ensures forall i :: 0 <= i < |r| ==> r[i] == show(embedding[i])
  {
    seq(|embedding|, i requires 0 <= i < |embedding| => show(embedding[i]))
  }

  /** The literal `[e0,e1,...]`. */
  function EmbeddingString(embedding: seq<real>, show: real -> string): string
  {
    "[" + Join(ShownElements(embedding, show), ",") + "]"
  }

  /**
   * The literal is bracketed, adds no space of its own, and adds exactly n - 1
   * commas for n elements (so none beyond those when an element's text has none).
   */
  lemma EmbeddingStringShape(embedding: seq<real>, show: real -> string)
    requires |embedding| > 0
    ensures var s := EmbeddingString(embedding, show);
            && s[0] == '[' && s[|s| - 1] == ']'
            && Count(',', s) == CountIn(',', ShownElements(embedding, show)) + |embedding| - 1
            && Count(' ', s) == CountIn(' ', ShownElements(embedding, show))
  {
    var shown := ShownElements(embedding, show);
    var body := Join(shown, ",");
    var sep := ",";
    assert Count(',', "[") == 0 && Count(',', "]") == 0 && Count(' ', "[") == 0 && Count(' ', "]") == 0 by {
      assert "["[..0] == "" && "]"[..0] == "";
    }
    assert Count(',', sep) == 1 && Count(' ', sep) == 0 by {
      assert sep[..0] == "";
    }
    CountJoin(',', shown, sep);
    CountJoin(' ', shown, sep);
    CountConcat(',', "[" + body, "]");
    CountConcat(',', "[", body);
    CountConcat(' ', "[" + body, "]");
    CountConcat(' ', "[", body);
  }

  /**
   * The `StringBuilder` loop of `searchAndSaveSimilarCases`: `[`, then each element
   * followed by `,` unless it is the last, then `]`.
   */
  method EmbeddingText(embedding: seq<real>, show: real -> string) returns (s: string)
    ensures s == EmbeddingString(embedding, show)
  {
    ghost var shown := ShownElements(embedding, show);
    var sb := "[";
    var i := 0;
    while i < |embedding|
      invariant 0 <= i <= |embedding|
      invariant sb == "[" + Join(shown[..i], ",") + (if 0 < i < |embedding| then "," else "")
    {
      sb := sb + show(embedding[i]);
      if i < |embedding| - 1 {
        sb := sb + ",";
      }
      assert shown[..i + 1][..i] == shown[..i];
      i := i + 1;
    }
    assert shown[..|embedding|] == shown;
    sb := sb + "]";
    return sb;
  }

  // ---------------------------------------------------------------------------
  // Details and the texts taken from them
  // ---------------------------------------------------------------------------

  /**
   * `saveAnalysisDetails`' records: none for a missing or empty pattern list,
   * otherwise one per pattern, in order, with its four fields copied and linked
   * to the history.
   */
  function DetailsFor(historyId: Uuid, patterns: Option<seq<PsychologicalPattern>>): (r: seq<AnalysisDetail>)
    ensures patterns.None? ==> r == []
    ensures patterns.Some? ==> |r| == |patterns.value|
    ensures forall k :: 0 <= k < |r| ==>
              && r[k].analysisId == historyId
              && r[k].patternType == patterns.value[k].patternType
              && r[k].patternScore == patterns.value[k].patternScore
              && r[k].detectedSentence == patterns.value[k].detectedSentence
              && r[k].keyword == patterns.value[k].keyword
  {
    match patterns
    case None => []
    case Some(ps) =>
      seq(|ps|, k requires 0 <= k < |ps| =>
        AnalysisDetail(historyId, ps[k].patternType, ps[k].patternScore, ps[k].detectedSentence, ps[k].keyword))
  }

  /** The non-null, non-empty keywords of the details, in order. */
  function Keywords(details: seq<AnalysisDetail>): (r: seq<string>)
    ensures |r| <= |details|
    decreases |details|
  {
    if |details| == 0 then []
    else
      var d := details[|details| - 1];
      Keywords(details[..|details| - 1]) + (if d.keyword.Some? && d.keyword.value != "" then [d.keyword.value] else [])
  }

  /** The keywords are non-empty, and are exactly the non-empty keywords some detail has. */
  lemma {:induction false} KeywordsMembers(details: seq<AnalysisDetail>)
    ensures forall k :: 0 <= k < |Keywords(details)| ==> Keywords(details)[k] != ""
    ensures forall w :: w in Keywords(details) <==> exists d :: d in details && d.keyword == Some(w) && w != ""
    decreases |details|
  {
    if |details| > 0 {
      var init := details[..|details| - 1];
      KeywordsMembers(init);
      assert details == init + [details[|details| - 1]];
    }
  }

  /** The non-null, non-empty detected sentences of the details, in order. */
  function DetectedSentences(details: seq<AnalysisDetail>): (r: seq<string>)
    ensures |r| <= |details|
    decreases |details|
  {
    if |details| == 0 then []
    else
      var d := details[|details| - 1];
      DetectedSentences(details[..|details| - 1])
        + (if d.detectedSentence.Some? && d.detectedSentence.value != "" then [d.detectedSentence.value] else [])
  }

  /** The sentences are non-empty, and are exactly the non-empty sentences some detail has. */
  lemma {:induction false} DetectedSentencesMembers(details: seq<AnalysisDetail>)
    ensures forall k :: 0 <= k < |DetectedSentences(details)| ==> DetectedSentences(details)[k] != ""
    ensures forall t :: t in DetectedSentences(details) <==>
              exists d :: d in details && d.detectedSentence == Some(t) && t != ""
    decreases |details|
  {
    if |details| > 0 {
      var init := details[..|details| - 1];
      DetectedSentencesMembers(init);
      assert details == init + [details[|details| - 1]];
    }
  }

  /**
   * The keywords of two runs of details are those of the first run followed by
   * those of the second: order and repeats are kept.
   */
  lemma {:induction false} KeywordsAppend(a: seq<AnalysisDetail>, b: seq<AnalysisDetail>)
    ensures Keywords(a + b) == Keywords(a) + Keywords(b)
    decreases |b|
  {
    if |b| == 0 {
      assert a + b == a;
    } else {
      var init := b[..|b| - 1];
      KeywordsAppend(a, init);
      assert (a + b)[..|a + b| - 1] == a + init;
      assert (a + b)[|a + b| - 1] == b[|b| - 1];
    }
  }

  /** One detail contributes its keyword when it has a non-empty one, else nothing. */
  lemma KeywordsOne(d: AnalysisDetail)
    ensures Keywords([d]) == if d.keyword.Some? && d.keyword.value != "" then [d.keyword.value] else []
  {
    assert [d][..0] == [];
  }

  /** The same for the detected sentences. */
  lemma {:induction false} DetectedSentencesAppend(a: seq<AnalysisDetail>, b: seq<AnalysisDetail>)
    ensures DetectedSentences(a + b) == DetectedSentences(a) + DetectedSentences(b)
    decreases |b|
  {
    if |b| == 0 {
      assert a + b == a;
    } else {
      var init := b[..|b| - 1];
      DetectedSentencesAppend(a, init);
      assert (a + b)[..|a + b| - 1] == a + init;
      assert (a + b)[|a + b| - 1] == b[|b| - 1];
    }
  }

  lemma DetectedSentencesOne(d: AnalysisDetail)
    ensures DetectedSentences([d]) ==
              if d.detectedSentence.Some? && d.detectedSentence.value != "" then [d.detectedSentence.value] else []
  {
    assert [d][..0] == [];
  }

  /** `highlightTextUser`: the keywords joined with `", "`. */
  function UserHighlight(details: seq<AnalysisDetail>): string
  {
    Join(Keywords(details), ", ")
  }

  /** The user highlight is empty exactly when no detail has a non-empty keyword. */
  lemma UserHighlightEmpty(details: seq<AnalysisDetail>)
    ensures UserHighlight(details) == "" <==>
              forall d :: d in details ==> d.keyword.None? || d.keyword.value == ""
  {
    var ks := Keywords(details);
    KeywordsMembers(details);
    assert forall k :: 0 <= k < |ks| ==> ks[k] != "";
    JoinEmpty(ks, ", ");
    if |ks| > 0 {
      assert ks[0] in ks;
      var d :| d in details && d.keyword == Some(ks[0]) && ks[0] != "";
      assert !(d.keyword.None? || d.keyword.value == "");
    }
  }

  // ---------------------------------------------------------------------------
  // Similar-case matches
  // ---------------------------------------------------------------------------

  /** How many nearest cases are matched. */
  const SimilarCaseLimit: nat := 3

  /**
   * Everything the pipeline receives from outside the database: the random object
   * key, the bucket's location and whether it accepted the object, the recognizer's
   * response (`None` when the call failed), the id and timestamp the database gives
   * the new history, `Float.toString`, the cosine distance of each case from the
   * uploaded embedding, whether the vector query and the reading of its rows
   * succeed, and the Gemini key and model.
   */
  datatype Upstream = Upstream(
    objectId: Uuid,
    bucket: string,
    region: string,
    stored: bool,
    recognition: Option<MlAnalysisResponse>,
    historyId: Uuid,
    now: int,
    show: real -> string,
    dist: ExampleCase -> real,
    searched: bool,
    apiKey: string,
    llm: GeminiRequest -> GeminiReply)

  /** The case highlight Gemini gives for one case, in the context of the analysis's details. */
  function CaseHighlight(caseContent: string, details: seq<AnalysisDetail>, apiKey: string,
                         llm: GeminiRequest -> GeminiReply): string
  {
    Highlight(caseContent, llm(BuildRequest(apiKey, caseContent, UserHighlight(details), Some(DetectedSentences(details)))))
  }

  /**
   * One match per result row, in the rows' order: ranks 1..n, similarity
   * `1 - distance` (unclamped), the same user highlight on every match.
   */
  function BuildMatches(historyId: Uuid, rows: seq<CaseRow>, details: seq<AnalysisDetail>,
                        apiKey: string, llm: GeminiRequest -> GeminiReply): (r: seq<SpecificMatch>)
    ensures |r| == |rows|
    ensures RanksContiguous(r)
    ensures forall k :: 0 <= k < |r| ==>
              && r[k].analysisId == historyId
              && r[k].caseId == rows[k].id
              && r[k].similarityScore == 1.0 - rows[k].distance
              && r[k].highlightTextUser == UserHighlight(details)
              && r[k].highlightTextCase == CaseHighlight(rows[k].caseContent, details, apiKey, llm)
  {
    seq(|rows|, k requires 0 <= k < |rows| =>
      SpecificMatch(historyId, rows[k].id, 1.0 - rows[k].distance, k + 1,
                    UserHighlight(details), CaseHighlight(rows[k].caseContent, details, apiKey, llm)))
  }

  /** Two single appends and a tail are one append of the pair and the tail. */
  lemma AppendTwo<T>(s: seq<T>, a: T, b: T, t: seq<T>)
    ensures s + [a] + [b] + t == s + [a, b] + t
    ensures s + [a] + [b] == s + [a, b] + []
  {
    assert s + [a] + [b] == s + [a, b];
  }

  /** A prefix one element longer is the shorter prefix and that element. */
  lemma PrefixGrows<T>(s: seq<T>, i: int)
    requires 0 <= i < |s|
    ensures s[..i + 1] == s[..i] + [s[i]]
  {
  }

  /** Match k of `BuildMatches`, written out field by field. */
  lemma BuildMatchesAt(historyId: Uuid, rows: seq<CaseRow>, details: seq<AnalysisDetail>,
                       apiKey: string, llm: GeminiRequest -> GeminiReply, k: int)
    requires 0 <= k < |rows|
    ensures BuildMatches(historyId, rows, details, apiKey, llm)[k]
            == SpecificMatch(historyId, rows[k].id, 1.0 - rows[k].distance, k + 1, UserHighlight(details),
                             Highlight(rows[k].caseContent,
                                       llm(BuildRequest(apiKey, rows[k].caseContent, UserHighlight(details),
                                                        Some(DetectedSentences(details))))))
  {
  }

  /**
   * The matches an upload saves: none without a (non-empty) embedding, otherwise
   * one per nearest case.
   */
  function SimilarMatches(historyId: Uuid, embedding: Option<seq<real>>, cases: seq<ExampleCase>,
                          details: seq<AnalysisDetail>, up: Upstream): (r: seq<SpecificMatch>)
    ensures |r| <= SimilarCaseLimit
    ensures RanksContiguous(r)
  {
    if embedding.None? || |embedding.value| == 0 then []
    else BuildMatches(historyId, FindSimilarCasesWithDistance(cases, up.dist, SimilarCaseLimit),
                      DetailsOf(details, historyId), up.apiKey, up.llm)
  }

  /**
   * The saved matches are at most three, rank 1 is the most similar and
   * similarity never increases with rank, and every case left unmatched is at
   * most as similar as every matched one.
   */
  lemma SimilarMatchesRanking(historyId: Uuid, embedding: Option<seq<real>>, cases: seq<ExampleCase>,
                              details: seq<AnalysisDetail>, up: Upstream)
    ensures var ms := SimilarMatches(historyId, embedding, cases, details, up);
            && |ms| <= SimilarCaseLimit
            && (forall i, j :: 0 <= i < j < |ms| ==> ms[i].similarityScore >= ms[j].similarityScore)
            && (embedding.Some? && |embedding.value| > 0 ==>
                  forall x, i ::
                    (x in multiset(CaseRows(cases, up.dist)) - multiset(FindSimilarCasesWithDistance(cases, up.dist, SimilarCaseLimit))
                     && 0 <= i < |ms|) ==> 1.0 - x.distance <= ms[i].similarityScore)
  {
    SimilarMatchesDescending(historyId, embedding, cases, details, up);
    if embedding.Some? && |embedding.value| > 0 {
      SimilarMatchesBeatLeftovers(historyId, embedding.value, cases, details, up);
    }
  }

  /** Similarity never increases with rank. */
  lemma SimilarMatchesDescending(historyId: Uuid, embedding: Option<seq<real>>, cases: seq<ExampleCase>,
                                 details: seq<AnalysisDetail>, up: Upstream)
    ensures var ms := SimilarMatches(historyId, embedding, cases, details, up);
            forall i, j :: 0 <= i < j < |ms| ==> ms[i].similarityScore >= ms[j].similarityScore
  {
    var ms := SimilarMatches(historyId, embedding, cases, details, up);
    if embedding.Some? && |embedding.value| > 0 {
      var rows := FindSimilarCasesWithDistance(cases, up.dist, SimilarCaseLimit);
      NearestFirst(cases, up.dist, SimilarCaseLimit);
      forall i, j | 0 <= i < j < |ms| ensures ms[i].similarityScore >= ms[j].similarityScore {
        assert rows[i].distance <= rows[j].distance;
      }
    }
  }

  /** Every case left unmatched is at most as similar as every matched one. */
  lemma SimilarMatchesBeatLeftovers(historyId: Uuid, embedding: seq<real>, cases: seq<ExampleCase>,
                                    details: seq<AnalysisDetail>, up: Upstream)
    requires |embedding| > 0
    ensures var ms := SimilarMatches(historyId, Some(embedding), cases, details, up);
            forall x, i ::
              (x in multiset(CaseRows(cases, up.dist)) - multiset(FindSimilarCasesWithDistance(cases, up.dist, SimilarCaseLimit))
               && 0 <= i < |ms|) ==> 1.0 - x.distance <= ms[i].similarityScore
  {
    var ms := SimilarMatches(historyId, Some(embedding), cases, details, up);
    var rows := FindSimilarCasesWithDistance(cases, up.dist, SimilarCaseLimit);
    NearestFirst(cases, up.dist, SimilarCaseLimit);
    forall x, i | x in multiset(CaseRows(cases, up.dist)) - multiset(rows) && 0 <= i < |ms|
      ensures 1.0 - x.distance <= ms[i].similarityScore
    {
      assert rows[i].distance <= x.distance;
    }
  }

  /**
   * The `for` loop of `searchAndSaveSimilarCases`: for each row, in order, a match
   * with the running rank, `1 - distance`, the joined keywords and the case
   * highlight Gemini gives.
   */
  method MatchRows(historyId: Uuid, results: seq<CaseRow>, details: seq<AnalysisDetail>, up: Upstream)
    returns (matches: seq<SpecificMatch>)
    ensures matches == BuildMatches(historyId, results, details, up.apiKey, up.llm)
  {
    ghost var expected := BuildMatches(historyId, results, details, up.apiKey, up.llm);
    matches := [];
    var rank := 1;
    for i := 0 to |results|
      invariant rank == i + 1
      invariant matches == expected[..i]
    {
      var row := results[i];
      var similarity := 1.0 - row.distance;
      var highlightUser := UserHighlight(details);
      var detectedSentences := DetectedSentences(details);
      var highlightCase := ExtractSimilarKeywords(up.apiKey, row.caseContent, highlightUser, Some(detectedSentences), up.llm);
      var m := SpecificMatch(historyId, row.id, similarity, rank, highlightUser, highlightCase);
      BuildMatchesAt(historyId, results, details, up.apiKey, up.llm, i);
      assert m == expected[i];
      PrefixGrows(expected, i);
      assert matches + [m] == expected[..i + 1];
      rank := rank + 1;
      matches := matches + [m];
    }
    assert expected[..|results|] == expected;
  }

  /**
   * `searchAndSaveSimilarCases`: writes the embedding literal, asks for the three
   * nearest cases, and, unless there are none, builds one match per row and saves
   * them all. When the query or the reading of a row throws, nothing is saved and
   * `ok` is false.
   */
  method SearchAndSaveSimilarCases(store: Store, historyId: Uuid, embedding: seq<real>, up: Upstream)
    returns (ok: bool)
    modifies store`matches, store`calls
    ensures store.calls == old(store.calls) + [VectorSearch(EmbeddingString(embedding, up.show), SimilarCaseLimit)]
    ensures ok == up.searched
    ensures !ok ==> store.matches == old(store.matches)
    ensures ok ==>
              store.matches == old(store.matches) +
                BuildMatches(historyId, FindSimilarCasesWithDistance(store.cases, up.dist, SimilarCaseLimit),
                             DetailsOf(store.details, historyId), up.apiKey, up.llm)
  {
    var embeddingStr := EmbeddingText(embedding, up.show);
    store.calls := store.calls + [VectorSearch(embeddingStr, SimilarCaseLimit)];
    if !up.searched {
      return false;
    }
    ok := true;
    var results := FindSimilarCasesWithDistance(store.cases, up.dist, SimilarCaseLimit);
    if |results| == 0 {
      assert BuildMatches(historyId, results, DetailsOf(store.details, historyId), up.apiKey, up.llm) == [];
      assert store.matches + [] == store.matches;
      return;
    }
    var details := DetailsOf(store.details, historyId);
    var matches := MatchRows(historyId, results, details, up);
    store.matches := store.matches + matches;
  }

  // ---------------------------------------------------------------------------
  // The upload pipeline
  // ---------------------------------------------------------------------------

  datatype UploadError =
    | Invalid(reason: ValidationError)  // validateImage rejected the file
    | MalformedUserId                   // UUID.fromString failed on the user id
    | StorageFailed                     // the object upload failed
    | RecognitionFailed                 // the recognizer call failed
    | SearchFailed                      // the vector query, or reading one of its rows, threw

  datatype AnalysisUploadResponse = AnalysisUploadResponse(analysisId: Uuid, imageUrl: string)

  /** `saveAnalysisHistory`'s record: the recognizer's fields, the owner and the image URL. */
  function NewHistory(id: Uuid, user: Uuid, imageUrl: string, ml: MlAnalysisResponse, createdAt: int): AnalysisHistory
  {
    AnalysisHistory(id, user, imageUrl, ml.ocrText, ml.riskScore, ml.riskLevel, ml.description, createdAt)
  }

  /** The key and URL the uploaded object gets. */
  function ObjectKey(image: MultipartFile, up: Upstream): string
  {
    S3Service.GenerateFileName(image.originalFilename, up.objectId)
  }

  function UploadedUrl(image: MultipartFile, up: Upstream): string
  {
    S3Service.ImageUrl(up.bucket, up.region, ObjectKey(image, up))
  }

  /**
   * The tables after a successful upload: the user exists, one history is
   * appended, then its details, then its matches (computed from the details
   * just saved).
   */
  function AfterUpload(db: Db, user: Uuid, imageUrl: string, ml: MlAnalysisResponse, up: Upstream): Db
  {
    var details := db.details + DetailsFor(up.historyId, ml.psychologicalPatterns);
    Db(db.users + {user},
       db.histories + [NewHistory(up.historyId, user, imageUrl, ml, up.now)],
       details,
       db.matches + SimilarMatches(up.historyId, ml.embedding, db.cases, details, up),
       db.cases)
  }

  /** The upload runs the vector query: the response carries a non-empty embedding. */
  predicate RunsSearch(ml: MlAnalysisResponse)
  {
    ml.embedding.Some? && |ml.embedding.value| > 0
  }

  /** The query an upload runs, if it runs one. */
  function SearchCalls(ml: MlAnalysisResponse, up: Upstream): seq<OutboundCall>
  {
    if RunsSearch(ml) then [VectorSearch(EmbeddingString(ml.embedding.value, up.show), SimilarCaseLimit)] else []
  }

  /**
   * Without an embedding no query runs and no match is saved, but the history and
   * its details are.
   */
  lemma UploadWithoutEmbedding(db: Db, user: Uuid, imageUrl: string, ml: MlAnalysisResponse, up: Upstream)
    requires !RunsSearch(ml)
    ensures var after := AfterUpload(db, user, imageUrl, ml, up);
            && after.histories == db.histories + [NewHistory(up.historyId, user, imageUrl, ml, up.now)]
            && after.details == db.details + DetailsFor(up.historyId, ml.psychologicalPatterns)
            && after.matches == db.matches
            && SearchCalls(ml, up) == []
  {
    assert db.matches + [] == db.matches;
  }

  /** No detail or match refers to an analysis that does not exist. */
  lemma {:induction false} NoMatchesOfUnknown(db: Db, id: Uuid)
    requires ValidDb(db) && FindHistory(db.histories, id).None?
    ensures MatchesOf(db.matches, id) == []
    ensures DetailsOf(db.details, id) == []
  {
    forall k | 0 <= k < |db.matches| ensures db.matches[k].analysisId != id {
      assert db.matches[k] in db.matches;
    }
    MatchesOfNone(db.matches, id);
    forall k | 0 <= k < |db.details| ensures db.details[k].analysisId != id {
      assert db.details[k] in db.details;
    }
    DetailsOfNone(db.details, id);
  }

  /** The matches an upload saves all belong to the new history and point at stored cases. */
  lemma {:induction false} NewMatchesReferToCases(historyId: Uuid, embedding: Option<seq<real>>, cases: seq<ExampleCase>,
                                                  details: seq<AnalysisDetail>, up: Upstream)
    ensures var ms := SimilarMatches(historyId, embedding, cases, details, up);
            forall k :: 0 <= k < |ms| ==> ms[k].analysisId == historyId && FindCase(cases, ms[k].caseId).Some?
  {
    var ms := SimilarMatches(historyId, embedding, cases, details, up);
    if embedding.Some? && |embedding.value| > 0 {
      var rows := FindSimilarCasesWithDistance(cases, up.dist, SimilarCaseLimit);
      forall k | 0 <= k < |ms| ensures FindCase(cases, ms[k].caseId).Some? {
        ReturnedRowsAreStoredCases(cases, up.dist, SimilarCaseLimit, k);
        var j :| 0 <= j < |cases| && rows[k] == CaseRow(cases[j].id, cases[j].caseContent, up.dist(cases[j]));
        assert cases[j].id == ms[k].caseId;
      }
    }
  }

  /** The new matches are exactly the matches of the new history, ranked 1..n. */
  lemma {:induction false} NewHistoryMatches(db: Db, user: Uuid, imageUrl: string, ml: MlAnalysisResponse, up: Upstream)
    requires ValidDb(db) && FindHistory(db.histories, up.historyId).None?
    ensures var after := AfterUpload(db, user, imageUrl, ml, up);
            MatchesOf(after.matches, up.historyId) == SimilarMatches(up.historyId, ml.embedding, db.cases, after.details, up)
  {
    var after := AfterUpload(db, user, imageUrl, ml, up);
    var added := SimilarMatches(up.historyId, ml.embedding, db.cases, after.details, up);
    NewMatchesReferToCases(up.historyId, ml.embedding, db.cases, after.details, up);
    NoMatchesOfUnknown(db, up.historyId);
    MatchesOfAppend(db.matches, added, up.historyId);
    MatchesOfAll(added, up.historyId);
  }

  /** After an upload the history ids stay unique and every owner exists. */
  lemma {:induction false} AfterUploadHistories(db: Db, user: Uuid, imageUrl: string, ml: MlAnalysisResponse, up: Upstream)
    requires ValidDb(db) && FindHistory(db.histories, up.historyId).None?
    ensures var after := AfterUpload(db, user, imageUrl, ml, up);
            && (forall i, j :: 0 <= i < j < |after.histories| ==> after.histories[i].id != after.histories[j].id)
            && (forall g :: g in after.histories ==> g.userId in after.users)
  {
    var after := AfterUpload(db, user, imageUrl, ml, up);
    var h := NewHistory(up.historyId, user, imageUrl, ml, up.now);
    assert after.histories == db.histories + [h];
    forall i, j | 0 <= i < j < |after.histories| ensures after.histories[i].id != after.histories[j].id {
      if j < |db.histories| {
        assert after.histories[i] == db.histories[i] && after.histories[j] == db.histories[j];
      } else {
        assert after.histories[i] == db.histories[i];
      }
    }
  }

  /** After an upload every detail and every match still refers to an existing history and case. */
  lemma {:induction false} AfterUploadReferences(db: Db, user: Uuid, imageUrl: string, ml: MlAnalysisResponse, up: Upstream)
    requires ValidDb(db) && FindHistory(db.histories, up.historyId).None?
    ensures var after := AfterUpload(db, user, imageUrl, ml, up);
            && (forall d :: d in after.details ==> FindHistory(after.histories, d.analysisId).Some?)
            && (forall m :: m in after.matches ==>
                  FindHistory(after.histories, m.analysisId).Some? && FindCase(after.cases, m.caseId).Some?)
  {
    var after := AfterUpload(db, user, imageUrl, ml, up);
    var h := NewHistory(up.historyId, user, imageUrl, ml, up.now);
    var newDetails := DetailsFor(up.historyId, ml.psychologicalPatterns);
    var added := SimilarMatches(up.historyId, ml.embedding, db.cases, after.details, up);
    assert after.histories == db.histories + [h];
    forall id | FindHistory(db.histories, id).Some? ensures FindHistory(after.histories, id).Some? {
      FindHistoryAppend(db.histories, h, id);
    }
    FindHistoryAppend(db.histories, h, up.historyId);
    forall d | d in after.details ensures FindHistory(after.histories, d.analysisId).Some? {
      if d !in db.details {
        var k :| 0 <= k < |newDetails| && newDetails[k] == d;
      }
    }
    NewMatchesReferToCases(up.historyId, ml.embedding, db.cases, after.details, up);
    forall m | m in after.matches
      ensures FindHistory(after.histories, m.analysisId).Some? && FindCase(after.cases, m.caseId).Some?
    {
      if m !in db.matches {
        var k :| 0 <= k < |added| && added[k] == m;
      }
    }
  }

  /** After an upload the matches of every history are still ranked 1..n. */
  lemma {:induction false} AfterUploadRanks(db: Db, user: Uuid, imageUrl: string, ml: MlAnalysisResponse, up: Upstream)
    requires ValidDb(db) && FindHistory(db.histories, up.historyId).None?
    ensures var after := AfterUpload(db, user, imageUrl, ml, up);
            forall g :: g in after.histories ==> RanksContiguous(MatchesOf(after.matches, g.id))
  {
    var after := AfterUpload(db, user, imageUrl, ml, up);
    var added := SimilarMatches(up.historyId, ml.embedding, db.cases, after.details, up);
    NewHistoryMatches(db, user, imageUrl, ml, up);
    NewMatchesReferToCases(up.historyId, ml.embedding, db.cases, after.details, up);
    forall g | g in after.histories && g.id != up.historyId
      ensures MatchesOf(after.matches, g.id) == MatchesOf(db.matches, g.id)
    {
      MatchesOfAppend(db.matches, added, g.id);
      MatchesOfNone(added, g.id);
      assert MatchesOf(db.matches, g.id) + [] == MatchesOf(db.matches, g.id);
    }
  }

  /** An upload keeps the tables consistent: keys unique, references resolved, ranks 1..n. */
  lemma AfterUploadValid(db: Db, user: Uuid, imageUrl: string, ml: MlAnalysisResponse, up: Upstream)
    requires ValidDb(db) && FindHistory(db.histories, up.historyId).None?
    ensures ValidDb(AfterUpload(db, user, imageUrl, ml, up))
  {
    AfterUploadHistories(db, user, imageUrl, ml, up);
    AfterUploadReferences(db, user, imageUrl, ml, up);
    AfterUploadRanks(db, user, imageUrl, ml, up);
  }

  /** `saveAnalysisDetails`: nothing for a missing or empty list, else one record per pattern. */
  method SaveAnalysisDetails(store: Store, historyId: Uuid, patterns: Option<seq<PsychologicalPattern>>)
    modifies store`details
    ensures store.details == old(store.details) + DetailsFor(historyId, patterns)
  {
    if patterns.None? || |patterns.value| == 0 {
      assert DetailsFor(historyId, patterns) == [];
      assert store.details + [] == store.details;
      return;
    }
    store.details := store.details + DetailsFor(historyId, patterns);
  }

  /**
   * Steps 4 to 6 of `uploadAndAnalyze`: save the history, then its details, then,
   * when the response carries a non-empty embedding, search and save its matches.
   * `ok` is false when step 6 throws; the history and details are then saved but
   * no match is (the caller rolls them back).
   */
  method SaveAnalysis(store: Store, user: Uuid, imageUrl: string, ml: MlAnalysisResponse, up: Upstream)
    returns (ok: bool)
    requires user in store.users
    modifies store`histories, store`details, store`matches, store`calls
    ensures ok <==> !RunsSearch(ml) || up.searched
    ensures ok ==> store.Tables() == AfterUpload(old(store.Tables()), user, imageUrl, ml, up)
    ensures !ok ==>
              && store.histories == old(store.histories) + [NewHistory(up.historyId, user, imageUrl, ml, up.now)]
              && store.details == old(store.details) + DetailsFor(up.historyId, ml.psychologicalPatterns)
              && store.matches == old(store.matches)
    ensures store.calls == old(store.calls) + SearchCalls(ml, up)
  {
    ghost var before := store.Tables();
    var history := NewHistory(up.historyId, user, imageUrl, ml, up.now);
    store.histories := store.histories + [history];
    SaveAnalysisDetails(store, history.id, ml.psychologicalPatterns);
    if RunsSearch(ml) {
      ok := SearchAndSaveSimilarCases(store, history.id, ml.embedding.value, up);
    } else {
      ok := true;
      assert store.matches + [] == store.matches;
      assert store.calls + [] == store.calls;
    }
    if ok {
      assert before.users + {user} == store.users;
      assert store.Tables() == AfterUpload(before, user, imageUrl, ml, up);
    }
  }

  /**
   * Steps 4 to 6 inside the upload's transaction: when step 6 throws, the history
   * and details saved before it are rolled back as well.
   */
  method SaveOrRollBack(store: Store, user: Uuid, imageUrl: string, ml: MlAnalysisResponse, up: Upstream)
    returns (ok: bool)
    requires user in store.users
    modifies store`histories, store`details, store`matches, store`calls
    ensures ok <==> !RunsSearch(ml) || up.searched
    ensures ok ==> store.Tables() == AfterUpload(old(store.Tables()), user, imageUrl, ml, up)
    ensures !ok ==> store.Tables() == old(store.Tables())
    ensures store.calls == old(store.calls) + SearchCalls(ml, up)
  {
    var historiesBefore, detailsBefore, matchesBefore := store.histories, store.details, store.matches;
    ok := SaveAnalysis(store, user, imageUrl, ml, up);
    if !ok {
      store.histories, store.details, store.matches := historiesBefore, detailsBefore, matchesBefore;
    }
  }

  /** An upload by a user who already exists has the same outcome. */
  lemma AfterUploadKnownUser(db: Db, user: Uuid, imageUrl: string, ml: MlAnalysisResponse, up: Upstream)
    ensures AfterUpload(Db(db.users + {user}, db.histories, db.details, db.matches, db.cases), user, imageUrl, ml, up)
         == AfterUpload(db, user, imageUrl, ml, up)
  {
    assert db.users + {user} + {user} == db.users + {user};
  }

  /**
   * `uploadAndAnalyze`, one sequential run. The steps happen in the code's order:
   * validate, parse the user id, find or create the user, upload the object, call
   * the recognizer, save the history, its details and, when the response carries a
   * non-empty embedding, its matches. A failure rolls back every table (the method
   * is transactional), but not the calls already made to outside services; a
   * rejected file or malformed id fails before any of them.
   */
  method UploadAndAnalyze(store: Store, userUuid: Option<Uuid>, image: MultipartFile, up: Upstream)
    returns (r: Result<AnalysisUploadResponse, UploadError>)
    requires store.Valid()
    requires FindHistory(store.histories, up.historyId).None?
    modifies store
    ensures store.Valid()
    ensures r.Err? ==> store.Tables() == old(store.Tables())
    ensures ValidateImage(image).Fail? ==>
              r == Err(Invalid(ValidateImage(image).error)) && store.calls == old(store.calls)
    ensures ValidateImage(image).Pass? && userUuid.None? ==>
              r == Err(MalformedUserId) && store.calls == old(store.calls)
    ensures ValidateImage(image).Pass? && userUuid.Some? && !up.stored ==>
              r == Err(StorageFailed) && store.calls == old(store.calls) + [PutObject(ObjectKey(image, up))]
    ensures ValidateImage(image).Pass? && userUuid.Some? && up.stored && up.recognition.None? ==>
              r == Err(RecognitionFailed) && store.calls == old(store.calls) + [PutObject(ObjectKey(image, up)), Recognize]
    ensures ValidateImage(image).Pass? && userUuid.Some? && up.stored && up.recognition.Some? ==>
              store.calls == old(store.calls) + [PutObject(ObjectKey(image, up)), Recognize]
                               + SearchCalls(up.recognition.value, up)
    ensures (&& ValidateImage(image).Pass? && userUuid.Some? && up.stored && up.recognition.Some?
             && RunsSearch(up.recognition.value) && !up.searched) ==> r == Err(SearchFailed)
    ensures r.Ok? <==> && ValidateImage(image).Pass? && userUuid.Some? && up.stored && up.recognition.Some?
                       && (!RunsSearch(up.recognition.value) || up.searched)
    ensures r.Ok? ==>
              && r.value == AnalysisUploadResponse(up.historyId, UploadedUrl(image, up))
              && store.Tables() == AfterUpload(old(store.Tables()), userUuid.value, UploadedUrl(image, up), up.recognition.value, up)
  {
    var outcome := ValidateImage(image);
    if outcome.Fail? {
      return Err(Invalid(outcome.error));
    }
    if userUuid.None? {
      return Err(MalformedUserId);
    }
    r := AnalyzeForUser(store, userUuid.value, image, up);
    if r.Ok? {
      AfterUploadValid(old(store.Tables()), userUuid.value, UploadedUrl(image, up), up.recognition.value, up);
    }
  }

  /**
   * `uploadAndAnalyze` once the file passed and the user id parsed: find or create
   * the user, upload the object, call the recognizer, then save. A failed upload,
   * recognition or vector query rolls the tables back but keeps the calls already
   * made.
   */
  method AnalyzeForUser(store: Store, user: Uuid, image: MultipartFile, up: Upstream)
    returns (r: Result<AnalysisUploadResponse, UploadError>)
    modifies store
    ensures r.Err? ==> store.Tables() == old(store.Tables())
    ensures !up.stored ==>
              r == Err(StorageFailed) && store.calls == old(store.calls) + [PutObject(ObjectKey(image, up))]
    ensures up.stored && up.recognition.None? ==>
              r == Err(RecognitionFailed) && store.calls == old(store.calls) + [PutObject(ObjectKey(image, up)), Recognize]
    ensures up.stored && up.recognition.Some? ==>
              store.calls == old(store.calls) + [PutObject(ObjectKey(image, up)), Recognize]
                               + SearchCalls(up.recognition.value, up)
    ensures up.stored && up.recognition.Some? && RunsSearch(up.recognition.value) && !up.searched ==>
              r == Err(SearchFailed)
    ensures r.Ok? <==> up.stored && up.recognition.Some? && (!RunsSearch(up.recognition.value) || up.searched)
    ensures r.Ok? ==>
              && r.value == AnalysisUploadResponse(up.historyId, UploadedUrl(image, up))
              && store.Tables() == AfterUpload(old(store.Tables()), user, UploadedUrl(image, up), up.recognition.value, up)
  {
    ghost var before := store.Tables();
    var usersBefore := store.users;

    // findById(...).orElseGet(createNewUser): afterwards the user exists.
    store.users := store.users + {user};

    var imageUrl := S3Service.Upload(store, image.originalFilename, up.objectId, up.bucket, up.region, up.stored);
    assert store.calls == old(store.calls) + [PutObject(ObjectKey(image, up))];
    if imageUrl.None? {
      store.users := usersBefore;
      assert store.Tables() == before;
      return Err(StorageFailed);
    }

    assert store.Tables() == Db(before.users + {user}, before.histories, before.details, before.matches, before.cases);
    r := RecognizeAndSave(store, user, imageUrl.value, usersBefore, up, before);
    if up.recognition.Some? {
      AppendTwo(old(store.calls), PutObject(ObjectKey(image, up)), Recognize, SearchCalls(up.recognition.value, up));
    } else {
      AppendTwo(old(store.calls), PutObject(ObjectKey(image, up)), Recognize, []);
    }
  }

  /**
   * Steps 3 to 6 of `uploadAndAnalyze`, once the user was added to the tables
   * `before`: call the recognizer, then save. A failure rolls the tables back to
   * `before`, the new user included.
   */
  method RecognizeAndSave(store: Store, user: Uuid, imageUrl: string, usersBefore: set<Uuid>, up: Upstream, ghost before: Db)
    returns (r: Result<AnalysisUploadResponse, UploadError>)
    requires usersBefore == before.users
    requires store.Tables() == Db(before.users + {user}, before.histories, before.details, before.matches, before.cases)
    modifies store`users, store`histories, store`details, store`matches, store`calls
    ensures r.Err? ==> store.Tables() == before
    ensures up.recognition.None? ==> r == Err(RecognitionFailed) && store.calls == old(store.calls) + [Recognize]
    ensures up.recognition.Some? ==> store.calls == old(store.calls) + [Recognize] + SearchCalls(up.recognition.value, up)
    ensures up.recognition.Some? && RunsSearch(up.recognition.value) && !up.searched ==> r == Err(SearchFailed)
    ensures r.Ok? <==> up.recognition.Some? && (!RunsSearch(up.recognition.value) || up.searched)
    ensures r.Ok? ==>
              && r.value == AnalysisUploadResponse(up.historyId, imageUrl)
              && store.Tables() == AfterUpload(before, user, imageUrl, up.recognition.value, up)
  {
    store.calls := store.calls + [Recognize];
    if up.recognition.None? {
      store.users := usersBefore;
      return Err(RecognitionFailed);
    }
    var ml := up.recognition.value;
    var saved := SaveOrRollBack(store, user, imageUrl, ml, up);
    if !saved {
      // The exception rolls the whole transaction back, the new user included.
      store.users := usersBefore;
      return Err(SearchFailed);
    }
    AfterUploadKnownUser(before, user, imageUrl, ml, up);
    return Ok(AnalysisUploadResponse(up.historyId, imageUrl));
  }

  // ---------------------------------------------------------------------------
  // Reading one analysis back
  // ---------------------------------------------------------------------------

  datatype PsychologicalPatternDto = PsychologicalPatternDto(
    patternType: string,
    detectedSentence: Option<string>,
    keyword: Option<string>,
    patternScore: int)

  datatype SimilarCaseDto = SimilarCaseDto(
    matchedRank: int,
    caseId: string,
    category: string,
    similarityScore: real,
    content: string,
    highlightUser: string,
    highlightCase: string)

  datatype AnalysisDetailResponse = AnalysisDetailResponse(
    analysisId: string,
    imageUrl: string,
    rawText: string,
    riskScore: Option<int>,
    riskLevel: string,
    description: string,
    psychologicalPatterns: seq<PsychologicalPatternDto>,
    similarCases: seq<SimilarCaseDto>,
    createdAt: int)

  datatype DetailError =
    | InvalidUuid        // UUID.fromString failed on the user id or the analysis id
    | AnalysisNotFound   // no history with that id
    | AccessDenied       // the history belongs to another user

  function ToPatternDto(d: AnalysisDetail): PsychologicalPatternDto
  {
    PsychologicalPatternDto(d.patternType, d.detectedSentence, d.keyword, d.patternScore)
  }

  function ToSimilarCaseDto(row: MatchRow): SimilarCaseDto
  {
    SimilarCaseDto(row.matchedRank, row.caseId.text, row.category, row.similarityScore,
                   row.caseContent, row.highlightTextUser, row.highlightTextCase)
  }

  /**
   * `getAnalysisDetail` (read-only): fails on an unparsable id, then on an unknown
   * analysis, then on an analysis owned by someone else; otherwise returns the
   * history's fields, its details' patterns in table order, and its similar cases
   * in the order the match query returns them (ascending rank).
   */
  function GetAnalysisDetail(db: Db, userUuid: Option<Uuid>, analysisId: Option<Uuid>)
    : (r: Result<AnalysisDetailResponse, DetailError>)
    ensures r == Err(InvalidUuid) <==> userUuid.None? || analysisId.None?
    ensures r == Err(AnalysisNotFound) <==>
              userUuid.Some? && analysisId.Some? && FindHistory(db.histories, analysisId.value).None?
    ensures r == Err(AccessDenied) <==>
              && userUuid.Some? && analysisId.Some? && FindHistory(db.histories, analysisId.value).Some?
              && FindHistory(db.histories, analysisId.value).value.userId != userUuid.value
    ensures r.Ok? ==>
              && userUuid.Some? && analysisId.Some?
              && FindHistory(db.histories, analysisId.value) == Some(AnalysisHistory(
                   analysisId.value, userUuid.value, r.value.imageUrl, r.value.rawText, r.value.riskScore,
                   r.value.riskLevel, r.value.description, r.value.createdAt))
              && r.value.analysisId == analysisId.value.text
    ensures r.Ok? ==>
              var details := DetailsOf(db.details, analysisId.value);
              && |r.value.psychologicalPatterns| == |details|
              && forall k :: 0 <= k < |details| ==> r.value.psychologicalPatterns[k] == ToPatternDto(details[k])
    ensures r.Ok? ==>
              var cs := r.value.similarCases;
              forall i, j :: 0 <= i < j < |cs| ==> cs[i].matchedRank <= cs[j].matchedRank
  {
    if userUuid.None? || analysisId.None? then Err(InvalidUuid)
    else
      match FindHistory(db.histories, analysisId.value)
      case None => Err(AnalysisNotFound)
      case Some(h) =>
        if h.userId != userUuid.value then Err(AccessDenied)
        else
          var details := DetailsOf(db.details, h.id);
          var rows := FindMatchDetailsWithoutEmbedding(db.matches, db.cases, analysisId.value);
          Ok(AnalysisDetailResponse(
            h.id.text, h.imageUrl, h.rawText, h.riskScore, h.riskLevel, h.description,
            seq(|details|, k requires 0 <= k < |details| => ToPatternDto(details[k])),
            seq(|rows|, k requires 0 <= k < |rows| => ToSimilarCaseDto(rows[k])),
            h.createdAt))
  }

  /** The patterns of a recognizer response, as the detail read presents them. */
  function PatternsAsRead(patterns: Option<seq<PsychologicalPattern>>): seq<PsychologicalPatternDto>
  {
    match patterns
    case None => []
    case Some(ps) =>
      seq(|ps|, k requires 0 <= k < |ps| =>
        PsychologicalPatternDto(ps[k].patternType, ps[k].detectedSentence, ps[k].keyword, ps[k].patternScore))
  }

  /** The details read back for a new history are exactly the ones its upload saved. */
  lemma {:induction false} ReadBackDetails(db: Db, user: Uuid, imageUrl: string, ml: MlAnalysisResponse, up: Upstream)
    requires ValidDb(db) && FindHistory(db.histories, up.historyId).None?
    ensures DetailsOf(AfterUpload(db, user, imageUrl, ml, up).details, up.historyId)
         == DetailsFor(up.historyId, ml.psychologicalPatterns)
  {
    var newDetails := DetailsFor(up.historyId, ml.psychologicalPatterns);
    NoMatchesOfUnknown(db, up.historyId);
    DetailsOfAppend(db.details, newDetails, up.historyId);
    DetailsOfAll(newDetails, up.historyId);
    assert [] + newDetails == newDetails;
  }

  /**
   * The match rows read back for a new history are the saved matches, one row
   * each, in rank order: row k has rank k + 1 and the k-th match's case.
   */
  lemma {:induction false} ReadBackRows(db: Db, user: Uuid, imageUrl: string, ml: MlAnalysisResponse, up: Upstream)
    requires ValidDb(db) && FindHistory(db.histories, up.historyId).None?
    ensures var after := AfterUpload(db, user, imageUrl, ml, up);
            var added := SimilarMatches(up.historyId, ml.embedding, db.cases, after.details, up);
            var rows := FindMatchDetailsWithoutEmbedding(after.matches, after.cases, up.historyId);
            && |rows| == |added|
            && forall k :: 0 <= k < |added| ==>
                 && rows[k].matchedRank == k + 1
                 && rows[k].caseId == added[k].caseId
                 && rows[k].similarityScore == added[k].similarityScore
                 && rows[k].highlightTextUser == added[k].highlightTextUser
                 && rows[k].highlightTextCase == added[k].highlightTextCase
  {
    var after := AfterUpload(db, user, imageUrl, ml, up);
    var added := SimilarMatches(up.historyId, ml.embedding, db.cases, after.details, up);
    NewHistoryMatches(db, user, imageUrl, ml, up);
    NewMatchesReferToCases(up.historyId, ml.embedding, db.cases, after.details, up);
    RankedMatchesReadBack(after.matches, after.cases, up.historyId, added);
  }

  /** A successful read shows the history's own fields and one pattern per detail, in table order. */
  lemma OwnerReadsDetails(db: Db, user: Uuid, analysisId: Uuid)
    requires FindHistory(db.histories, analysisId).Some? && FindHistory(db.histories, analysisId).value.userId == user
    ensures var r := GetAnalysisDetail(db, Some(user), Some(analysisId));
            var h := FindHistory(db.histories, analysisId).value;
            var details := DetailsOf(db.details, analysisId);
            && r.Ok?
            && r.value.riskScore == h.riskScore && r.value.description == h.description
            && |r.value.psychologicalPatterns| == |details|
            && forall k :: 0 <= k < |details| ==> r.value.psychologicalPatterns[k] == ToPatternDto(details[k])
  {
    var r := GetAnalysisDetail(db, Some(user), Some(analysisId));
    assert r.Ok?;
  }

  /** The recognizer's patterns read back through their details are the patterns as read. */
  lemma PatternsThroughDetails(historyId: Uuid, patterns: Option<seq<PsychologicalPattern>>, ps: seq<PsychologicalPatternDto>)
    requires var details := DetailsFor(historyId, patterns);
             |ps| == |details| && forall k :: 0 <= k < |details| ==> ps[k] == ToPatternDto(details[k])
    ensures ps == PatternsAsRead(patterns)
  {
  }

  /** The owner's read of a new history succeeds and shows the recognizer's fields and patterns. */
  lemma {:induction false} ReadBackPatterns(db: Db, user: Uuid, imageUrl: string, ml: MlAnalysisResponse, up: Upstream)
    requires ValidDb(db) && FindHistory(db.histories, up.historyId).None?
    ensures var r := GetAnalysisDetail(AfterUpload(db, user, imageUrl, ml, up), Some(user), Some(up.historyId));
            && r.Ok?
            && r.value.riskScore == ml.riskScore && r.value.description == ml.description
            && r.value.psychologicalPatterns == PatternsAsRead(ml.psychologicalPatterns)
  {
    var after := AfterUpload(db, user, imageUrl, ml, up);
    var h := NewHistory(up.historyId, user, imageUrl, ml, up.now);
    assert after.histories == db.histories + [h];
    FindHistoryAppend(db.histories, h, up.historyId);
    ReadBackDetails(db, user, imageUrl, ml, up);
    OwnerReadsDetails(after, user, up.historyId);
    var r := GetAnalysisDetail(after, Some(user), Some(up.historyId));
    PatternsThroughDetails(up.historyId, ml.psychologicalPatterns, r.value.psychologicalPatterns);
  }

  /** A successful read lists one similar case per row of the match query, in the query's order. */
  lemma {:induction false} OwnerReadsMatchRows(db: Db, user: Uuid, analysisId: Uuid)
    requires FindHistory(db.histories, analysisId).Some? && FindHistory(db.histories, analysisId).value.userId == user
    ensures var r := GetAnalysisDetail(db, Some(user), Some(analysisId));
            var rows := FindMatchDetailsWithoutEmbedding(db.matches, db.cases, analysisId);
            && r.Ok?
            && |r.value.similarCases| == |rows|
            && forall k :: 0 <= k < |rows| ==> r.value.similarCases[k] == ToSimilarCaseDto(rows[k])
  {
    var r := GetAnalysisDetail(db, Some(user), Some(analysisId));
    assert r.Ok?;
  }

  /** The owner's read of a new history lists its matches ranked 1..n, as they were saved. */
  lemma {:induction false} ReadBackSimilarCases(db: Db, user: Uuid, imageUrl: string, ml: MlAnalysisResponse, up: Upstream)
    requires ValidDb(db) && FindHistory(db.histories, up.historyId).None?
    ensures var after := AfterUpload(db, user, imageUrl, ml, up);
            var r := GetAnalysisDetail(after, Some(user), Some(up.historyId));
            var added := SimilarMatches(up.historyId, ml.embedding, db.cases, after.details, up);
            && r.Ok?
            && |r.value.similarCases| == |added|
            && forall k :: 0 <= k < |added| ==>
                 && r.value.similarCases[k].matchedRank == k + 1
                 && r.value.similarCases[k].caseId == added[k].caseId.text
                 && r.value.similarCases[k].similarityScore == added[k].similarityScore
                 && r.value.similarCases[k].highlightUser == added[k].highlightTextUser
                 && r.value.similarCases[k].highlightCase == added[k].highlightTextCase
  {
    var after := AfterUpload(db, user, imageUrl, ml, up);
    var h := NewHistory(up.historyId, user, imageUrl, ml, up.now);
    assert after.histories == db.histories + [h];
    FindHistoryAppend(db.histories, h, up.historyId);
    ReadBackRows(db, user, imageUrl, ml, up);
    OwnerReadsMatchRows(after, user, up.historyId);
  }

  /** Any user other than the uploader is refused the new history. */
  lemma {:induction false} OtherUserDenied(db: Db, user: Uuid, imageUrl: string, ml: MlAnalysisResponse, up: Upstream, other: Uuid)
    requires FindHistory(db.histories, up.historyId).None?
    requires other != user
    ensures GetAnalysisDetail(AfterUpload(db, user, imageUrl, ml, up), Some(other), Some(up.historyId)) == Err(AccessDenied)
  {
    var after := AfterUpload(db, user, imageUrl, ml, up);
    var h := NewHistory(up.historyId, user, imageUrl, ml, up.now);
    assert after.histories == db.histories + [h];
    FindHistoryAppend(db.histories, h, up.historyId);
  }
}
