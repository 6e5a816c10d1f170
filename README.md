# RED-Flag backend core, modelled in Dafny

RED-Flag is a Spring Boot backend that analyses screenshots of chat messages for
phishing. An upload is validated and stored in S3. An external recognizer scores
it. The backend then saves the analysis history, one detail per manipulation
pattern, and up to three matches against catalogued historical scam cases. The
matches come from pgvector nearest neighbours, and Gemini writes each match's
highlight. Beside the pipeline sit:

- a dashboard: today's detection count and the age and gender shares from a
  public statistics feed;
- a security-information page: Google News RSS items and a YouTube playlist;
- an anonymous user identity kept in a `user_id` cookie.

This project models that core as Dafny and proves properties of it.

- **Tables as values.** The database tables are a `Db` value held by a `Store`
  class. The store also logs the calls made to outside services (S3
  `putObject`, the recognizer, the vector query).
- **Reads are functions; updates are methods.** Read paths (`GetAnalysisDetail`,
  the repository queries, the dashboard and news shaping) are functions. Update
  paths (`UploadAndAnalyze`, `SaveAnalysis`, `IssueUserId`) are methods that
  modify the store.
- **Loops are methods.** Each loop of the source is a method proved equal to a
  specification function:
  - the embedding `StringBuilder` loop;
  - the match-building loop;
  - the RSS item loop;
  - the playlist loop;
  - the cookie scan.
- **Outside calls are inputs.** Everything that comes from outside is a
  parameter: the recognizer response, S3 success, Gemini replies, the RSS
  items, YouTube and the statistics replies, random UUIDs, the clock,
  `Float.toString`, the cosine distance and `UUID.fromString`.
  - An HTTP call is a `Remote<T>`. It is either `CallFailed` (an exception) or
    `Delivered(body)` with a possibly-null body.
  - A nullable reference the code checks for null is an `Option` (the recognizer's score,
    patterns, embedding, sentences and keywords, the file's name and type, the cookie).
    The other nullable fields are plain values; "## Left out" lists them.
- **Numbers.**
  - Java `int` arithmetic wraps at 32 bits (`DashboardService.Wrap32`).
  - Percentages are exact integers in tenths of a percent, rounded half up as
    `Math.round(x * 10) / 10` does.

Where the sources disagree with each other, the model follows the service code:

- `AnalysisHistoryRepository` is declared over `Long` ids, but the service
  looks histories up and returns them by `UUID`. The model uses UUID ids.
- `MlAnalysisResponse` declares no embedding field, but the service reads
  `getEmbedding()`. The model has an optional embedding.
- The `DashboardResponse` record has three components, but the service builds it
  with four, today's detection first. The model has four.
- `ErrorStatus` lists no `SECURITY_*` codes, but `SecurityInfoService` throws
  them. The model has them as `SecurityError`.
- A match's similarity is `1 - distance` as the code computes it. It is neither
  clamped to [0, 1] nor rounded to two decimals.

All paths below are relative to `src/main/java/com/redflag/redflag/`, and the
source column gives the full path from the repository root.

## Model

| member | source | states |
|---|---|---|
| Text.Trim | src/main/java/com/redflag/redflag/analysis/service/GeminiService.java:96 | `String.trim()`: never longer, and the result neither starts nor ends with a character <= ' ' |
| Text.TrimIsSlice | src/main/java/com/redflag/redflag/analysis/service/GeminiService.java:96 | the result is a contiguous slice of the input, and everything cut off before and after it is characters <= ' ' |
| Text.LastIndexOf | src/main/java/com/redflag/redflag/securityinfo/service/SecurityInfoService.java:134-135 | `lastIndexOf`: the last occurrence, and none exactly when the pattern does not occur (`contains` is its `Some?`) |
| Text.StripTags | src/main/java/com/redflag/redflag/securityinfo/service/SecurityInfoService.java:172 | `replaceAll("<[^>]*>", "")`: never longer, adds no character, and leaves no `<` followed later by `>` |
| Text.StripTagsKeepsText | src/main/java/com/redflag/redflag/securityinfo/service/SecurityInfoService.java:172 | text before the first `<` is kept as it is |
| Text.StripTagsDropsTag | src/main/java/com/redflag/redflag/securityinfo/service/SecurityInfoService.java:172 | a `<`, everything up to the first `>` after it, and that `>` are dropped, and the text before the tag is kept |
| Text.StripTagsUnclosed | src/main/java/com/redflag/redflag/securityinfo/service/SecurityInfoService.java:172 | with no `>` anywhere nothing is dropped, so a `<` without a later `>` is kept |
| Text.ReplaceShrinks | src/main/java/com/redflag/redflag/securityinfo/service/SecurityInfoService.java:175-179 | replacing a target by something no longer never makes the text longer |
| Text.ReplaceAbsent | src/main/java/com/redflag/redflag/securityinfo/service/SecurityInfoService.java:175-179 | replacing a target that does not occur changes nothing |
| Text.CollapseSpaces | src/main/java/com/redflag/redflag/securityinfo/service/SecurityInfoService.java:182 | `replaceAll("\\s+", " ")`: never longer, the only whitespace left is ' ', no two whitespace characters adjacent |
| Text.CollapseSpacesKeepsWord | src/main/java/com/redflag/redflag/securityinfo/service/SecurityInfoService.java:182 | text without whitespace is kept as it is |
| Text.CollapseSpacesRun | src/main/java/com/redflag/redflag/securityinfo/service/SecurityInfoService.java:182 | a maximal run of `\s` becomes exactly one space |
| Text.CollapseSpacesKeepsText | src/main/java/com/redflag/redflag/securityinfo/service/SecurityInfoService.java:182 | with whitespace removed, input and result are the same text, in order |
| Text.CollapseSpacesChars | src/main/java/com/redflag/redflag/securityinfo/service/SecurityInfoService.java:182 | the result has no character but the input's and ' ' |
| Text.TrimKeepsText | src/main/java/com/redflag/redflag/securityinfo/service/SecurityInfoService.java:182 | when every character `trim()` could cut is whitespace, no other text is removed |
| Text.TrimUnpadded | src/main/java/com/redflag/redflag/securityinfo/service/SecurityInfoService.java:182 | text that neither starts nor ends with a character <= ' ' is not trimmed |
| Text.JoinEmpty | src/main/java/com/redflag/redflag/analysis/service/AnalysisService.java:193-196 | joining non-empty parts is empty exactly when there are no parts |
| Text.CountJoin | src/main/java/com/redflag/redflag/analysis/service/AnalysisService.java:151-158 | joining n parts adds exactly n - 1 copies of the separator's characters |
| Text.Format03dSpells | src/main/java/com/redflag/redflag/securityinfo/service/SecurityInfoService.java:215 | `%03d`: at least three digits (exactly three below 1000) whose decimal value is the number |
| Text.Format03dInjective | src/main/java/com/redflag/redflag/securityinfo/service/SecurityInfoService.java:215 | different numbers give different padded strings |
| Sorting.SortByKey | src/main/java/com/redflag/redflag/analysis/repository/SpecificMatchRepository.java:33 | `ORDER BY`: a permutation of the input, sorted by the key |
| Sorting.SortSortedIsIdentity | src/main/java/com/redflag/redflag/analysis/repository/SpecificMatchRepository.java:33 | ordering rows that are already in order returns them unchanged |
| Sorting.SortedPrefixIsLeast | src/main/java/com/redflag/redflag/analysis/repository/ExampleCaseRepository.java:23-24 | the first k rows of a sorted table are sorted, taken from it, and no nearer than any row after them |
| Sorting.TakeLeast | src/main/java/com/redflag/redflag/analysis/repository/ExampleCaseRepository.java:23-24 | `ORDER BY key LIMIT n`: exactly min(n, size) rows |
| Sorting.TakeLeastIsLeast | src/main/java/com/redflag/redflag/analysis/repository/ExampleCaseRepository.java:23-24 | the rows kept are sorted by the key, taken from the input, and none left out is nearer than one kept |
| Domain.FindHistory | src/main/java/com/redflag/redflag/analysis/service/AnalysisService.java:241-242 | `findById`: a found history has the id; none found exactly when no history has it |
| Domain.FindCase | src/main/java/com/redflag/redflag/analysis/repository/SpecificMatchRepository.java:28-29 | the case a match's `exampleCase` path reaches: found with that id, or none exactly when no case has it |
| Domain.DetailsOf | src/main/java/com/redflag/redflag/analysis/service/AnalysisService.java:174 | `findByAnalysisHistory`: never more details than stored, in table order (see "Left out") |
| Domain.DetailsOfMembers | src/main/java/com/redflag/redflag/analysis/service/AnalysisService.java:174 | a detail is found exactly when it is stored and belongs to that analysis |
| Domain.MatchesOf | src/main/java/com/redflag/redflag/analysis/repository/SpecificMatchRepository.java:32 | `WHERE sm.analysisHistory.id = :analysisId`: never more matches than stored |
| Domain.MatchesOfMembers | src/main/java/com/redflag/redflag/analysis/repository/SpecificMatchRepository.java:32 | a match is selected exactly when it is stored and belongs to that analysis |
| Domain.DetailsOfAppend | src/main/java/com/redflag/redflag/analysis/service/AnalysisService.java:174 | the details of one analysis over two tables are those of the first followed by those of the second |
| Domain.MatchesOfAppend | src/main/java/com/redflag/redflag/analysis/repository/SpecificMatchRepository.java:32 | the same for the matches of one analysis |
| Domain.FindHistoryAppend | src/main/java/com/redflag/redflag/analysis/service/AnalysisService.java:121 | a history saved under a fresh id is found by it, and every other lookup is unchanged |
| ExampleCaseRepository.CaseRows | src/main/java/com/redflag/redflag/analysis/repository/ExampleCaseRepository.java:18-22 | one `[id, case_content, distance]` row per stored case |
| ExampleCaseRepository.FindSimilarCasesWithDistance | src/main/java/com/redflag/redflag/analysis/repository/ExampleCaseRepository.java:18-27 | `LIMIT :limit`: exactly min(limit, table size) rows |
| ExampleCaseRepository.NearestFirst | src/main/java/com/redflag/redflag/analysis/repository/ExampleCaseRepository.java:18-27 | `ORDER BY distance`: the rows come in ascending distance, are rows of the table, and every row left out is at least as far as every row returned |
| ExampleCaseRepository.ReturnedRowsAreStoredCases | src/main/java/com/redflag/redflag/analysis/repository/ExampleCaseRepository.java:18-22 | every returned row is some stored case's id and content |
| SpecificMatchRepository.JoinCases | src/main/java/com/redflag/redflag/analysis/repository/SpecificMatchRepository.java:28-31 | the inner join never yields more rows than there are matches |
| SpecificMatchRepository.JoinCasesMembers | src/main/java/com/redflag/redflag/analysis/repository/SpecificMatchRepository.java:28-31 | the inner join with `exampleCase`: rows only for matches whose case exists, and every such match has its row |
| SpecificMatchRepository.JoinCasesTotal | src/main/java/com/redflag/redflag/analysis/repository/SpecificMatchRepository.java:28-31 | when every match has its case, the join keeps one row per match |
| SpecificMatchRepository.JoinCasesExact | src/main/java/com/redflag/redflag/analysis/repository/SpecificMatchRepository.java:28-31 | when every case exists, row k is the seven-column projection of match k |
| SpecificMatchRepository.JoinCasesSorted | src/main/java/com/redflag/redflag/analysis/repository/SpecificMatchRepository.java:28-33 | the join keeps order, so rank-sorted matches give rank-sorted rows |
| SpecificMatchRepository.FindMatchDetailsWithoutEmbedding | src/main/java/com/redflag/redflag/analysis/repository/SpecificMatchRepository.java:28-34 | `ORDER BY sm.matchedRank ASC`: ranks never decrease along the rows |
| SpecificMatchRepository.MatchDetailsMembers | src/main/java/com/redflag/redflag/analysis/repository/SpecificMatchRepository.java:28-34 | every row is the projection of a match of that analysis whose case exists, and every such match has its row |
| SpecificMatchRepository.RankedMatchesInTableOrder | src/main/java/com/redflag/redflag/analysis/repository/SpecificMatchRepository.java:28-34 | when an analysis's ranks run 1, 2, … in table order, the query returns the join in that same order |
| SpecificMatchRepository.RankedMatchesReadBack | src/main/java/com/redflag/redflag/analysis/repository/SpecificMatchRepository.java:28-34 | with contiguous ranks and every case present, row k is match k's projection and carries rank k + 1 |
| SpecificMatchRepository.RowCountUnderIntegrity | src/main/java/com/redflag/redflag/analysis/repository/SpecificMatchRepository.java:28-34 | with every case present, one row per match of the analysis |
| AnalysisHistoryRepository.CountByRiskScoreGreaterThanEqualAndCreatedAtBetween | src/main/java/com/redflag/redflag/analysis/repository/AnalysisHistoryRepository.java:17-25 | the COUNT is at most the table size; 0 exactly when no row passes the WHERE (a NULL score never does); the table size exactly when all do |
| AnalysisHistoryRepository.CountAppend | src/main/java/com/redflag/redflag/analysis/repository/AnalysisHistoryRepository.java:17-20 | counting over two sets of rows is the sum of the counts |
| AnalysisHistoryRepository.AdjacentWindowsAdd | src/main/java/com/redflag/redflag/analysis/repository/AnalysisHistoryRepository.java:19-20 | the window is half-open: adjacent windows count each row once |
| AnalysisHistoryRepository.CountAntitoneInScore | src/main/java/com/redflag/redflag/analysis/repository/AnalysisHistoryRepository.java:18 | raising the minimum score never counts more |
| S3Service.Extension | src/main/java/com/redflag/redflag/analysis/service/S3Service.java:63-66 | empty for no name or a name without `.`; otherwise the suffix from the last `.` (starts with `.`, holds no other) |
| S3Service.GenerateFileName | src/main/java/com/redflag/redflag/analysis/service/S3Service.java:62-68 | the key is `analysis/`, then the UUID, then the extension |
| S3Service.GenerateFileNameInjective | src/main/java/com/redflag/redflag/analysis/service/S3Service.java:60-68 | different UUIDs of canonical length never give the same key |
| S3Service.ImageUrl | src/main/java/com/redflag/redflag/analysis/service/S3Service.java:48-49 | the URL is `https://...` and ends with the key |
| S3Service.ImageUrlInjective | src/main/java/com/redflag/redflag/analysis/service/S3Service.java:48-49 | within one bucket and region the URL determines the key |
| S3Service.Upload | src/main/java/com/redflag/redflag/analysis/service/S3Service.java:29-58 | the put request is made under the generated key; the URL is returned only when the bucket accepted it |
| GeminiService.ContextInfo | src/main/java/com/redflag/redflag/analysis/service/GeminiService.java:36-40 | empty exactly when there are no detected sentences |
| GeminiService.ContextInfoLines | src/main/java/com/redflag/redflag/analysis/service/GeminiService.java:36-40 | the header, then the sentences with exactly one line break between neighbours |
| GeminiService.PromptLayout | src/main/java/com/redflag/redflag/analysis/service/GeminiService.java:42-58 | the case content, then keywords immediately followed by the context, each after its fixed heading, then the fixed instructions |
| GeminiService.BuildRequest | src/main/java/com/redflag/redflag/analysis/service/GeminiService.java:30-75 | the URL is the endpoint followed by the key; the prompt; temperature 0.3, 100 tokens, topP 0.8, topK 10 |
| GeminiService.Fallback | src/main/java/com/redflag/redflag/analysis/service/GeminiService.java:98-101 | a prefix of the case content: 30 characters, or all of a shorter one |
| GeminiService.Highlight | src/main/java/com/redflag/redflag/analysis/service/GeminiService.java:87-101 | the reply's first text trimmed when present, else the fallback |
| GeminiService.FailedCallFallsBack | src/main/java/com/redflag/redflag/analysis/service/GeminiService.java:98-101 | a failed call yields the case content's prefix of min(30, length) characters |
| GeminiService.ExtractSimilarKeywords | src/main/java/com/redflag/redflag/analysis/service/GeminiService.java:24-103 | the step-by-step walk of the reply equals the highlight of the model's reply to the built request; it never fails |
| AnalysisService.ValidateImage | src/main/java/com/redflag/redflag/analysis/service/AnalysisService.java:78-100 | accepts exactly non-empty files of at most 10 MiB with content type jpeg, jpg or png; each rejection iff the earlier checks passed and its own failed |
| AnalysisService.SizeLimitIsInclusive | src/main/java/com/redflag/redflag/analysis/service/AnalysisService.java:84-87 | 10485760 bytes pass, 10485761 are too large |
| AnalysisService.ShownElements | src/main/java/com/redflag/redflag/analysis/service/AnalysisService.java:153 | one `Float.toString` text per element, in order |
| AnalysisService.EmbeddingStringShape | src/main/java/com/redflag/redflag/analysis/service/AnalysisService.java:151-159 | the literal is bracketed, adds no space, and adds exactly n - 1 commas |
| AnalysisService.EmbeddingText | src/main/java/com/redflag/redflag/analysis/service/AnalysisService.java:151-159 | the `StringBuilder` loop produces `[` + elements joined by `,` + `]` |
| AnalysisService.DetailsFor | src/main/java/com/redflag/redflag/analysis/service/AnalysisService.java:125-144 | no detail for a null list; otherwise one per pattern, in order, with its four fields and the history's id |
| AnalysisService.Keywords | src/main/java/com/redflag/redflag/analysis/service/AnalysisService.java:193-196 | never more keywords than details |
| AnalysisService.KeywordsMembers | src/main/java/com/redflag/redflag/analysis/service/AnalysisService.java:193-196 | every keyword is non-empty, and a string is a keyword exactly when some detail has it as its non-null, non-empty keyword |
| AnalysisService.KeywordsAppend | src/main/java/com/redflag/redflag/analysis/service/AnalysisService.java:193-196 | the keywords of two runs of details are the first run's followed by the second's, so order and repeats are kept |
| AnalysisService.KeywordsOne | src/main/java/com/redflag/redflag/analysis/service/AnalysisService.java:193-196 | one detail contributes its keyword when it is non-null and non-empty, and nothing otherwise |
| AnalysisService.DetectedSentences | src/main/java/com/redflag/redflag/analysis/service/AnalysisService.java:199-202 | never more sentences than details |
| AnalysisService.DetectedSentencesMembers | src/main/java/com/redflag/redflag/analysis/service/AnalysisService.java:199-202 | every sentence is non-empty, and a string is one exactly when some detail has it as its non-null, non-empty sentence |
| AnalysisService.DetectedSentencesAppend | src/main/java/com/redflag/redflag/analysis/service/AnalysisService.java:199-202 | the sentences of two runs of details are the first run's followed by the second's |
| AnalysisService.DetectedSentencesOne | src/main/java/com/redflag/redflag/analysis/service/AnalysisService.java:199-202 | one detail contributes its sentence when it is non-null and non-empty, and nothing otherwise |
| AnalysisService.UserHighlightEmpty | src/main/java/com/redflag/redflag/analysis/service/AnalysisService.java:193-196 | the user highlight is empty exactly when no detail has a non-empty keyword |
| AnalysisService.BuildMatches | src/main/java/com/redflag/redflag/analysis/service/AnalysisService.java:178-226 | one match per row: ranks 1..n, similarity `1 - distance`, the case's id, the same user highlight on all, Gemini's case highlight |
| AnalysisService.SimilarMatches | src/main/java/com/redflag/redflag/analysis/service/AnalysisService.java:62-66 | at most three matches, ranked 1..n |
| AnalysisService.SimilarMatchesRanking | src/main/java/com/redflag/redflag/analysis/service/AnalysisService.java:163-185 | similarity never increases with rank, and no unmatched case is more similar than a matched one |
| AnalysisService.SimilarMatchesDescending | src/main/java/com/redflag/redflag/analysis/service/AnalysisService.java:163-185 | similarity never increases with rank |
| AnalysisService.SimilarMatchesBeatLeftovers | src/main/java/com/redflag/redflag/analysis/service/AnalysisService.java:163-185 | with an embedding, no case left out of the matches is more similar than any match |
| AnalysisService.MatchRows | src/main/java/com/redflag/redflag/analysis/service/AnalysisService.java:178-226 | the loop with its running rank builds exactly those matches |
| AnalysisService.SearchAndSaveSimilarCases | src/main/java/com/redflag/redflag/analysis/service/AnalysisService.java:147-230 | one vector query with the literal and limit 3; when it or the reading of a row throws, nothing is saved; otherwise the matches of its rows are appended (none for no rows) |
| AnalysisService.NewMatchesReferToCases | src/main/java/com/redflag/redflag/analysis/service/AnalysisService.java:212-218 | every saved match belongs to the new history and points at a stored case |
| AnalysisService.NewHistoryMatches | src/main/java/com/redflag/redflag/analysis/service/AnalysisService.java:216-228 | the new history's matches are exactly the ones just saved |
| AnalysisService.AfterUploadHistories | src/main/java/com/redflag/redflag/analysis/service/AnalysisService.java:40-56 | history ids stay unique and every history's owner exists |
| AnalysisService.AfterUploadReferences | src/main/java/com/redflag/redflag/analysis/service/AnalysisService.java:125-228 | every detail and match still refers to an existing history and case |
| AnalysisService.AfterUploadRanks | src/main/java/com/redflag/redflag/analysis/service/AnalysisService.java:179-220 | every history's matches stay ranked 1..n |
| AnalysisService.AfterUploadValid | src/main/java/com/redflag/redflag/analysis/service/AnalysisService.java:33-75 | an upload keeps the tables consistent |
| AnalysisService.SaveAnalysisDetails | src/main/java/com/redflag/redflag/analysis/service/AnalysisService.java:125-144 | appends exactly the details of the patterns |
| AnalysisService.SaveAnalysis | src/main/java/com/redflag/redflag/analysis/service/AnalysisService.java:55-66 | for a user already stored: history, then details, then (with a non-empty embedding only) the query and matches; succeeds unless that query fails, and then the tables are `AfterUpload`; a failed query leaves the history and details saved and no match |
| AnalysisService.SaveOrRollBack | src/main/java/com/redflag/redflag/analysis/service/AnalysisService.java:33-66 | a failed vector query rolls back the history and details saved before it, so the tables are as they were; otherwise as `AfterUpload` |
| AnalysisService.UploadWithoutEmbedding | src/main/java/com/redflag/redflag/analysis/service/AnalysisService.java:62-66 | without a non-empty embedding no query runs and no match is saved, while the history and details are |
| AnalysisService.AfterUploadKnownUser | src/main/java/com/redflag/redflag/analysis/service/AnalysisService.java:40-43 | registering a user that `AfterUpload` registers anyway changes nothing |
| AnalysisService.RecognizeAndSave | src/main/java/com/redflag/redflag/analysis/service/AnalysisService.java:50-74 | after the user was added: a failed recognition or vector query restores the tables as they were before the user, logging the recognizer call and the query if it ran; success iff recognition succeeds and the query (if it runs) does, with the new id and URL and the tables as `AfterUpload` |
| AnalysisService.AnalyzeForUser | src/main/java/com/redflag/redflag/analysis/service/AnalysisService.java:40-72 | a failed upload, recognition or vector query leaves the tables as they were, with the calls made so far logged; success iff the upload and recognition succeed and the query (if it runs) does, with the new id and URL and the tables as `AfterUpload` |
| AnalysisService.UploadAndAnalyze | src/main/java/com/redflag/redflag/analysis/service/AnalysisService.java:33-75 | each failure with its cause in the code's order (file, id, storage, recognizer, vector query), rolling back every table but not outside calls; a rejected file or id makes no call; success returns the new id and URL with the tables as `AfterUpload`, and the tables stay consistent |
| AnalysisService.GetAnalysisDetail | src/main/java/com/redflag/redflag/analysis/service/AnalysisService.java:233-286 | malformed id, then unknown analysis, then another owner, each iff its condition; otherwise the history's fields, its patterns in order, similar cases in rank order |
| AnalysisService.ReadBackDetails | src/main/java/com/redflag/redflag/analysis/service/AnalysisService.java:249-250 | the details read for a new history are exactly those its upload saved |
| AnalysisService.ReadBackRows | src/main/java/com/redflag/redflag/analysis/service/AnalysisService.java:260-261 | the match rows read back are the saved matches, row k with rank k + 1 |
| AnalysisService.ReadBackPatterns | src/main/java/com/redflag/redflag/analysis/service/AnalysisService.java:249-258 | the owner's read succeeds and shows the recognizer's score, description and patterns |
| AnalysisService.OwnerReadsDetails | src/main/java/com/redflag/redflag/analysis/service/AnalysisService.java:241-258 | the owner's read of an existing analysis succeeds, shows its score and description, and one pattern per stored detail in table order |
| AnalysisService.PatternsThroughDetails | src/main/java/com/redflag/redflag/analysis/service/AnalysisService.java:249-258 | patterns saved as details and mapped back to DTOs are the recognizer's patterns |
| AnalysisService.OwnerReadsMatchRows | src/main/java/com/redflag/redflag/analysis/service/AnalysisService.java:260-272 | the owner's read lists one similar case per match row, in the query's order |
| AnalysisService.ReadBackSimilarCases | src/main/java/com/redflag/redflag/analysis/service/AnalysisService.java:260-272 | the owner sees the new history's matches ranked 1..n, as saved |
| AnalysisService.OtherUserDenied | src/main/java/com/redflag/redflag/analysis/service/AnalysisService.java:244-247 | any other user is refused the new history |
| SecurityInfoService.ExtractSource | src/main/java/com/redflag/redflag/securityinfo/service/SecurityInfoService.java:133-138 | `"뉴스"` without `" - "`; otherwise the text after the last `" - "`, which holds none |
| SecurityInfoService.CleanTitle | src/main/java/com/redflag/redflag/securityinfo/service/SecurityInfoService.java:143-148 | the title without `" - "`; otherwise the text before the last one |
| SecurityInfoService.SplitAtLastSeparator | src/main/java/com/redflag/redflag/securityinfo/service/SecurityInfoService.java:133-148 | headline, `" - "` and source give the title back |
| SecurityInfoService.DecodeEntities | src/main/java/com/redflag/redflag/securityinfo/service/SecurityInfoService.java:175-179 | the five replacements never lengthen the text |
| SecurityInfoService.DecodeWithoutAmpersand | src/main/java/com/redflag/redflag/securityinfo/service/SecurityInfoService.java:175-179 | text without `&` is left as it is |
| SecurityInfoService.DoubleEscapedLessThan | src/main/java/com/redflag/redflag/securityinfo/service/SecurityInfoService.java:175-179 | replacements run one after another, so `&amp;lt;` decodes to `<` |
| SecurityInfoService.Normalize | src/main/java/com/redflag/redflag/securityinfo/service/SecurityInfoService.java:172-182 | never longer; only ' ' as whitespace, never two together, no padding at either end |
| SecurityInfoService.NormalizeKeepsText | src/main/java/com/redflag/redflag/securityinfo/service/SecurityInfoService.java:172-182 | on text without tags, entities or control characters other than whitespace, only whitespace changes: the rest is kept, in order |
| SecurityInfoService.NormalizeTagBetweenWords | src/main/java/com/redflag/redflag/securityinfo/service/SecurityInfoService.java:172-182 | a tag between two words is dropped, and the whitespace after it, if any, becomes one space |
| SecurityInfoService.CleanHtml | src/main/java/com/redflag/redflag/securityinfo/service/SecurityInfoService.java:166-190 | at most 100 characters; `""` for null or empty; the normalized text when it fits, else its first 97 characters and `...` |
| SecurityInfoService.StripTagsPlain | src/main/java/com/redflag/redflag/securityinfo/service/SecurityInfoService.java:172 | text without `<` has no tag to strip |
| SecurityInfoService.CollapseSpacesPlain | src/main/java/com/redflag/redflag/securityinfo/service/SecurityInfoService.java:182 | text without whitespace is not changed |
| SecurityInfoService.PlainSummaryUnchanged | src/main/java/com/redflag/redflag/securityinfo/service/SecurityInfoService.java:166-190 | a short plain-text summary is shown exactly as written |
| SecurityInfoService.PositionIdShape | src/main/java/com/redflag/redflag/securityinfo/service/SecurityInfoService.java:215 | an id is the prefix then digits that spell the 1-based position |
| SecurityInfoService.PositionIdsDistinct | src/main/java/com/redflag/redflag/securityinfo/service/SecurityInfoService.java:215 | different positions give different ids |
| SecurityInfoService.NewsEntries | src/main/java/com/redflag/redflag/securityinfo/service/SecurityInfoService.java:206-222 | one record per item taken |
| SecurityInfoService.NewsEntryAt | src/main/java/com/redflag/redflag/securityinfo/service/SecurityInfoService.java:206-222 | record k is item k shaped with its own position |
| SecurityInfoService.FetchNewsFromRss | src/main/java/com/redflag/redflag/securityinfo/service/SecurityInfoService.java:195-228 | the feed error iff the feed cannot be read; otherwise the first min(limit, items) records |
| SecurityInfoService.NewsIdsDistinct | src/main/java/com/redflag/redflag/securityinfo/service/SecurityInfoService.java:214-215 | news ids within one list are pairwise different |
| SecurityInfoService.GetSecurityNewsList | src/main/java/com/redflag/redflag/securityinfo/service/SecurityInfoService.java:63-66 | at most ten records, or the feed error |
| SecurityInfoService.VideoUrlShape | src/main/java/com/redflag/redflag/securityinfo/service/SecurityInfoService.java:100 | the video link is `https://youtu.be/` then the video id (`null` when missing) |
| SecurityInfoService.ChannelUrl | src/main/java/com/redflag/redflag/securityinfo/service/SecurityInfoService.java:105-107 | the fallback channel exactly when no channel id, else the channel prefix then the id |
| SecurityInfoService.Videos | src/main/java/com/redflag/redflag/securityinfo/service/SecurityInfoService.java:87-102 | one video per item taken |
| SecurityInfoService.VideoAt | src/main/java/com/redflag/redflag/securityinfo/service/SecurityInfoService.java:87-102 | video k is item k's, numbered by its own position |
| SecurityInfoService.GetYoutubeInfo | src/main/java/com/redflag/redflag/securityinfo/service/SecurityInfoService.java:71-117 | every failure is the YouTube error; success iff the reply has items and each can be read; then every item's video in order and the first item's channel |
| SecurityInfoService.VideoIdsDistinct | src/main/java/com/redflag/redflag/securityinfo/service/SecurityInfoService.java:96-97 | video ids within one reply are pairwise different |
| SecurityInfoService.GetSecurityInfo | src/main/java/com/redflag/redflag/securityinfo/service/SecurityInfoService.java:50-58 | a feed failure wins over a YouTube failure; success carries the first two news (fewer when the feed has fewer) and the YouTube info |
| DashboardService.Wrap32 | src/main/java/com/redflag/redflag/dashboard/service/DashboardService.java:94-95 | `int` addition: congruent to the exact sum modulo 2^32, and equal to it when it fits |
| DashboardService.CalculatePercentage | src/main/java/com/redflag/redflag/dashboard/service/DashboardService.java:157-162 | 0 for a zero total; otherwise the share r in tenths of a percent is 1000 value / total rounded half up (r - 1/2 <= 1000 value / total < r + 1/2), for either sign of the total |
| DashboardService.PercentageBounds | src/main/java/com/redflag/redflag/dashboard/service/DashboardService.java:157-162 | a share of a positive total lies in 0.0 .. 100.0 |
| DashboardService.SharesNearlyWhole | src/main/java/com/redflag/redflag/dashboard/service/DashboardService.java:157-162 | n rounded shares of a whole add to 100.0 within half a tenth per part |
| DashboardService.AgeSharesNearlyWhole | src/main/java/com/redflag/redflag/dashboard/service/DashboardService.java:94-105 | with a positive total that fits an `int`, the six age shares add to 99.8 .. 100.3 |
| DashboardService.GenderSharesNearlyWhole | src/main/java/com/redflag/redflag/dashboard/service/DashboardService.java:130-136 | with a positive total that fits an `int`, the two shares add to 100.0 or 100.1 |
| DashboardService.LatestOf | src/main/java/com/redflag/redflag/dashboard/service/DashboardService.java:89-91 | `max` by year: a greatest year, the first of equal greatest ones |
| DashboardService.GetAgeDistribution | src/main/java/com/redflag/redflag/dashboard/service/DashboardService.java:79-113 | not-found iff no rows; a failed call or a null the code dereferences is the external error; the latest-data error never happens; success iff a reply with rows arrived, their years are comparable and the latest row has every bucket, and then the value is that row's shares |
| DashboardService.GetGenderDistribution | src/main/java/com/redflag/redflag/dashboard/service/DashboardService.java:115-144 | the same for the gender feed with its own not-found status: success iff a reply with rows arrived, their years are comparable and the latest row has both counts, and then the value is that row's shares |
| DashboardService.GetTodayDetection | src/main/java/com/redflag/redflag/dashboard/service/DashboardService.java:64-77 | at most one per stored analysis, and 0 exactly when no analysis scored >= 50 was created during today |
| DashboardService.TodayDetectionAppend | src/main/java/com/redflag/redflag/dashboard/service/DashboardService.java:64-77 | a new analysis raises today's count by one exactly when it scores >= 50 and was created today |
| DashboardService.GetDashboardData | src/main/java/com/redflag/redflag/dashboard/service/DashboardService.java:40-59 | an age error hides a gender error; success iff both feeds succeed, with today's count, the fixed damage figures and both feeds' shares |
| UserController.Cookie.constructor | src/main/java/com/redflag/redflag/user/controller/UserController.java:99 | a new cookie has the given name and value and the servlet defaults: not HttpOnly, no path, session lifetime, not Secure, no attributes |
| UserController.HttpResponse.AddCookie | src/main/java/com/redflag/redflag/user/controller/UserController.java:60 | the cookie's header is appended after those already set |
| UserController.UserIdCookieIsConsistent | src/main/java/com/redflag/redflag/user/controller/UserController.java:98-117 | SameSite is None exactly when Secure, Secure exactly over HTTPS, always HttpOnly, 30 days |
| UserController.CreateUserCookie | src/main/java/com/redflag/redflag/user/controller/UserController.java:98-120 | a new cookie whose state is the user-id cookie for the id and the request's scheme |
| UserController.FirstUserCookie | src/main/java/com/redflag/redflag/user/controller/UserController.java:131-132 | the first cookie named `user_id`, none exactly when no cookie has that name |
| UserController.CookieValue | src/main/java/com/redflag/redflag/user/controller/UserController.java:45 | the `@CookieValue` binding: the first `user_id` cookie's value, null without one |
| UserController.GetUserIdFromCookie | src/main/java/com/redflag/redflag/user/controller/UserController.java:125-142 | the scan returns the parse of the first `user_id` cookie and never reads further |
| UserController.IssuedCookieReadsBack | src/main/java/com/redflag/redflag/user/controller/UserController.java:131-134 | an issued cookie ahead of any other `user_id` cookie reads back as its user, whatever follows |
| UserController.KnownUser | src/main/java/com/redflag/redflag/user/controller/UserController.java:50-55 | the cookie's id exactly when it parses and names an existing user |
| UserController.IssueUserId | src/main/java/com/redflag/redflag/user/controller/UserController.java:44-63 | a known id is answered and nothing changes; otherwise exactly one user is created and one cookie for it set; the answered id always exists |
| UserController.GetCurrentUser | src/main/java/com/redflag/redflag/user/controller/UserController.java:77-93 | 401 iff no cookie; 200 with the id iff it names a user; 404 with exactly the parsed id iff it parses but names no user; a malformed value throws |
| UserController.IssuedUserIsCurrent | src/main/java/com/redflag/redflag/user/controller/UserController.java:59-92 | after issuing, a request with the issued cookie is answered 200 with that id |

## Left out

- Domain.DetailsOf: `findByAnalysisHistory` is a derived query with no ORDER BY, so the database may return
  a history's details in any order. The model returns them in table (insertion) order. That order decides
  the order of the keywords and sentences joined into the Gemini prompt, and of `psychologicalPatterns` in
  `getAnalysisDetail`.
- ReadBackDetails: "exactly those saved, in order" holds for the table order `DetailsOf` fixes. The database
  promises only the same details in some order.
- ReadBackPatterns: the patterns equal the recognizer's in order only under that table order. The database
  promises only the same patterns in some order.
- OwnerReadsDetails: "one pattern per stored detail in table order" relies on the same fixed order.
- ReadBackRows: the score read back is `1 - distance` exactly. The `similarity_score` column is declared with
  precision 5 and scale 2, so the database keeps it rounded to two decimals.
- ReadBackSimilarCases: the same exact score, where the database returns it rounded to two decimals.
- MultipartFile: `isEmpty` and `size` are independent fields, though Spring's `isEmpty()` is `getSize() == 0`.
  The model therefore also admits files Spring cannot produce, such as a non-empty file of size 0.
- S3Service.Upload: the `PutObject` call is logged even when reading the file's input stream throws before
  `putObject` runs. That case looks like a put the bucket did not accept.
- Floating point: similarity scores, distances and embedding elements are exact reals.
  `Float.toString` is the parameter `show`, and `BigDecimal.valueOf` is not modelled.
- DashboardService.CalculatePercentage: computed in exact arithmetic, not IEEE doubles, so a
  share whose double lands just beside a rounding boundary may differ in its last tenth.
- The cosine distance (pgvector `<=>`) is the parameter `dist`. The database's order among equal
  distances is unspecified; the model uses a stable order.
- Transactions and concurrency: one sequential run. A failure rolls the tables back. The find-or-create
  user race is not modelled.
- Logging, the HTTP controllers other than `UserController`, `MlService` (its call is an input),
  Swagger and web configuration.
- Opening the RSS URL and parsing its XML (`getTagValue`): the feed is the list of its items, or
  nothing when opening or parsing fails. `formatDate` is an uninterpreted parameter.
- The YouTube request URL and its `maxResults=5`: the videos are whatever items the reply holds.
  A null element inside an item list, or inside the recognizer's pattern list, is not modelled.
- The statistics feeds' URLs and service key, and JSON decoding. A number outside `int` range fails
  decoding, so bucket values are `Int32`.
- `UUID.fromString` is the parameter `parse`. `UUID.randomUUID` and database-generated ids are inputs.
  `LocalDate.now()` is the day number `today`. Timestamps are seconds.
- UserController.IssueUserId: requires that the generated id is not already a user; a UUID collision is
  not modelled.
- S3Service.GenerateFileNameInjective: stated for UUID texts of equal length (canonical UUIDs all have 36
  characters).
- `UserService.getUser` is unused by the core and not modelled. `createUser` and `existsUser` are the store's
  user set.
- HTTP headers sent to Gemini, and the recognizer's `analysisId` field, are not modelled.
- SearchAndSaveSimilarCases: whether the vector query and the reading of its rows succeed is the input
  `searched`; the model does not derive it from the tables. In the database, pgvector rejects an embedding
  whose dimension differs from a stored `vector(768)` one. A case whose embedding is NULL has a NULL
  distance, which `1.0 - distance` cannot unbox. `SaveOrRollBack`, `RecognizeAndSave`, `AnalyzeForUser`
  and `UploadAndAnalyze` do model the failure itself: `SearchFailed`, with every table rolled back.
- FailedCallFallsBack: lengths count Unicode scalar values, where Java's `substring(0, 30)` counts UTF-16
  code units. On text with characters outside the Basic Multilingual Plane (emoji) the model keeps more
  than 30 units, and it cannot split a surrogate pair as Java can.
- Fallback: the same 30-character prefix, counted in Unicode scalar values rather than UTF-16 code units.
- CleanHtml: the 100-character limit and the 97-character cut count Unicode scalar values rather than
  UTF-16 code units, so a summary with emoji may be kept or cut where Java would do otherwise.
- Nullable plain fields: the recognizer's `ocrText`, `riskLevel`, `description`, `patternType` and
  `patternScore`, and the columns `raw_text`, `risk_level`, `summary`, `pattern_type`, `pattern_score`,
  `case_content` and `category`, are plain values, though Java lets each be null. A null stored and read
  back by `getAnalysisDetail` cannot be expressed. Neither can the exception a NULL `case_content` raises
  in the fallback's `substring` inside `extractSimilarKeywords`.
